/**
 One delegated request from the source instance's step to the destination instance's run and back.
 Saves whose order matters are separate actions, and either instance may crash between them.
 Requests do not share any of this state, so a system of many requests is a family of such cases.
 */
module Delegation {
  import opened Common
  import opened DelegationExchange

  datatype StepState = NotStarted | AwaitingReceipt | ReadyForHandoff | HandingOff | StepCompleted | StepContained

  datatype ProposalState = NoProposal | Received | Inadmissible | WaitingHuman | RejectedProposal | CancelledBeforeStart | Bound

  datatype GateState = NoGate | Requested | Approved | RejectedGate | Expired

  datatype RunState = NoRun | Waiting | Active | ResultObserved | Recovering | RunCancelled

  /** The source: `bound` says a plan step was bound to the request, `step` is that step, `completedBy` the receipt
      it was completed with; `consuming` is memory of the running instance. */
  datatype Source = Source(
    bound: bool, running: bool, step: StepState, completedBy: Option<Receipt>, consuming: Option<Receipt>,
    mirror: seq<Receipt>, consumptions: seq<Receipt>)

  /** The destination: `gate` is the delegation gate, `actionGate` and `run` belong to the local execution;
      `receiving` and `accepting` are memory of the running instance. */
  datatype Destination = Destination(
    received: bool, receiving: bool, proposal: ProposalState, gate: GateState, accepting: bool, acceptance: bool,
    bindings: nat, actionGate: GateState, run: RunState, receipts: seq<Receipt>)

  datatype Case = Case(src: Source, dst: Destination, submitted: bool, exchanged: seq<Receipt>)

  const NEW_DESTINATION := Destination(false, false, NoProposal, NoGate, false, false, 0, NoGate, NoRun, [])

  function NewCase(bound: bool): Case {
    Case(Source(bound, false, NotStarted, None, None, [], []), NEW_DESTINATION, false, [])
  }

  datatype SourceAction =
    | Start | Pause | Pull(r: Receipt) | ConsumeUnbound(r: Receipt) | BeginConsume(r: Receipt)
    | Handoff | CompleteStep | RecordConsumption | RetryStep | SourceCrash

  datatype DestinationAction =
    | Receive | MakeProposal | Admit(ok: bool) | ApproveGate(admissible: bool) | SaveAcceptance | StartLocalMission
    | SaveBinding | SaveBound | RejectProposal | CancelProposal
    | ApproveAction | RejectAction | ObserveRun | FailRun | ReviewRun | Publish(at: int) | DestinationCrash

  datatype Action = Submit | AtSource(source: SourceAction) | AtDestination(destination: DestinationAction) | Send(r: Receipt)

  /** The state a receipt reports for the bound run. */
  function Reported(run: RunState): ReceiptState {
    match run
    case ResultObserved => Completed
    case RunCancelled => Cancelled
    case Recovering => Uncertain
    case _ => Running
  }

  predicate HasRevision(receipts: seq<Receipt>, revision: nat) {
    exists i :: 0 <= i < |receipts| && receipts[i].revision == revision
  }

  predicate Consumable(s: Source, r: Receipt) {
    r in s.mirror && r.state == Completed && r !in s.consumptions
  }

  function SourceNext(s: Source, exchanged: seq<Receipt>, act: SourceAction): Source {
    match act
    case Start => s.(running := true, step := if s.bound && s.step == NotStarted then AwaitingReceipt else s.step)
    case Pause => s.(running := false)
    case Pull(r) => if r in exchanged && !HasRevision(s.mirror, r.revision) then s.(mirror := s.mirror + [r]) else s
    case ConsumeUnbound(r) => if !s.bound && Consumable(s, r) then s.(consumptions := s.consumptions + [r]) else s
    case BeginConsume(r) =>
      if s.bound && Consumable(s, r) && s.running && s.step == AwaitingReceipt && s.consuming.None?
      then s.(step := ReadyForHandoff, consuming := Some(r)) else s
    case Handoff => if s.consuming.Some? && s.step == ReadyForHandoff then s.(step := HandingOff) else s
    case CompleteStep =>
      if s.consuming.Some? && s.step == HandingOff then s.(step := StepCompleted, completedBy := s.consuming) else s
    case RecordConsumption =>
      if s.consuming.Some? && s.step == StepCompleted
      then s.(consumptions := s.consumptions + [s.consuming.value], consuming := None) else s
    case RetryStep => if s.step == StepContained && s.running then s.(step := StepCompleted) else s
    case SourceCrash => s.(consuming := None, step := if s.step == HandingOff then StepContained else s.step)
  }

  function DestinationNext(d: Destination, submitted: bool, act: DestinationAction): Destination {
    match act
    case Receive => if submitted && !d.received then d.(received := true, receiving := true) else d
    case MakeProposal => if d.receiving && d.proposal == NoProposal then d.(proposal := Received) else d
    case Admit(ok) =>
      if !d.receiving || d.proposal != Received then d
      else if ok then d.(gate := Requested, proposal := WaitingHuman, receiving := false)
      else d.(proposal := Inadmissible, receiving := false)
    case ApproveGate(admissible) =>
      if d.proposal != WaitingHuman || d.bindings > 0 || d.accepting then d
      else if !admissible then d.(proposal := Inadmissible, gate := if d.gate == Requested then Expired else d.gate)
      else if d.gate != Requested then d
      else d.(gate := Approved, accepting := true)
    case SaveAcceptance => if d.accepting then d.(acceptance := true) else d
    case StartLocalMission => if d.accepting && d.acceptance && d.run == NoRun then d.(run := Waiting, actionGate := Requested) else d
    case SaveBinding => if d.accepting && d.run != NoRun && d.bindings == 0 then d.(bindings := d.bindings + 1) else d
    case SaveBound => if d.accepting && d.bindings > 0 then d.(proposal := Bound, accepting := false) else d
    case RejectProposal =>
      if d.proposal == WaitingHuman && d.gate == Requested then d.(gate := RejectedGate, proposal := RejectedProposal) else d
    case CancelProposal =>
      if d.bindings == 0 && !d.accepting && d.proposal in {Received, Inadmissible, WaitingHuman}
      then d.(proposal := CancelledBeforeStart) else d
    case ApproveAction =>
      if d.run == Waiting && d.actionGate in {Requested, Approved} then d.(actionGate := Approved, run := Active) else d
    case RejectAction => if d.run == Waiting && d.actionGate == Requested then d.(actionGate := RejectedGate, run := RunCancelled) else d
    case ObserveRun => if d.run == Active then d.(run := ResultObserved) else d
    case FailRun => if d.run == Active then d.(run := Recovering) else d
    case ReviewRun => if d.run == Recovering then d.(run := RunCancelled) else d
    case Publish(at) =>
      if d.bindings > 0 && d.run != NoRun
      then d.(receipts := d.receipts + [Receipt("request", "source", "workspace", |d.receipts| + 1, Reported(d.run), at)]) else d
    case DestinationCrash => d.(receiving := false, accepting := false, run := if d.run == Active then Recovering else d.run)
  }

  /** The exchange keeps the first receipt of each revision. */
  function Next(c: Case, act: Action): Case {
    match act
    case Submit => c.(submitted := true)
    case AtSource(a) => c.(src := SourceNext(c.src, c.exchanged, a))
    case AtDestination(a) => c.(dst := DestinationNext(c.dst, c.submitted, a))
    case Send(r) => if r in c.dst.receipts && !HasRevision(c.exchanged, r.revision) then c.(exchanged := c.exchanged + [r]) else c
  }

  function Run(c: Case, acts: seq<Action>, n: nat): Case
    requires n <= |acts|
  {
    if n == 0 then c else Next(Run(c, acts, n - 1), acts[n - 1])
  }

  // ---------------------------------------------------------------- the chain of evidence

  ghost predicate DestinationInv(d: Destination) {
    && (d.proposal in {NoProposal, Received} ==> d.gate == NoGate && !d.accepting)
    && (d.acceptance || d.accepting ==> d.gate == Approved)
    && (d.run != NoRun ==> d.acceptance)
    && (d.bindings > 0 ==> d.run != NoRun) && d.bindings <= 1
    && (d.run in {Active, ResultObserved, Recovering} ==> d.actionGate == Approved)
    && forall i :: 0 <= i < |d.receipts| ==>
         d.receipts[i].revision == i + 1 && (d.receipts[i].state == Completed ==> d.run == ResultObserved && d.bindings == 1)
  }

  ghost predicate SourceInv(s: Source) {
    && (forall r :: r in s.consumptions ==> r in s.mirror && r.state == Completed)
    && (forall i, j :: 0 <= i < j < |s.consumptions| ==> s.consumptions[i] != s.consumptions[j])
    && (s.completedBy.Some? ==> s.completedBy.value in s.mirror && s.completedBy.value.state == Completed && s.step == StepCompleted)
    && (s.consuming.Some? ==>
          s.bound && s.consuming.value in s.mirror && s.consuming.value.state == Completed && s.consumptions == []
          && s.step in {ReadyForHandoff, HandingOff, StepCompleted} && (s.step == StepCompleted ==> s.completedBy == s.consuming))
    && (s.bound ==> |s.consumptions| <= 1 && (s.consumptions != [] ==> s.step == StepCompleted && s.completedBy == Some(s.consumptions[0])))
  }

  /** Receipts travel from the destination over the exchange to the source's mirror. */
  ghost predicate Travel(c: Case) {
    (forall r :: r in c.exchanged ==> r in c.dst.receipts) && (forall r :: r in c.src.mirror ==> r in c.exchanged)
  }

  ghost predicate Inv(c: Case) {
    DestinationInv(c.dst) && SourceInv(c.src) && Travel(c)
  }

  lemma SourceKeeps(s: Source, exchanged: seq<Receipt>, act: SourceAction)
    requires SourceInv(s)
    ensures var next := SourceNext(s, exchanged, act);
      SourceInv(next) && next.bound == s.bound && forall r :: r in next.mirror ==> r in s.mirror || r in exchanged
  {
  }

  lemma DestinationKeeps(d: Destination, submitted: bool, act: DestinationAction)
    requires DestinationInv(d)
    ensures var next := DestinationNext(d, submitted, act); DestinationInv(next) && d.receipts <= next.receipts
  {
  }

  lemma NextKeepsInv(c: Case, act: Action)
    requires Inv(c)
    ensures Inv(Next(c, act)) && Next(c, act).src.bound == c.src.bound
  {
    match act
    case AtSource(a) => SourceKeeps(c.src, c.exchanged, a);
    case AtDestination(a) => DestinationKeeps(c.dst, c.submitted, a);
    case _ =>
  }

  lemma {:induction false} RunKeepsInv(bound: bool, acts: seq<Action>, n: nat)
    requires n <= |acts|
    ensures Inv(Run(NewCase(bound), acts, n)) && Run(NewCase(bound), acts, n).src.bound == bound
  {
    if n > 0 {
      RunKeepsInv(bound, acts, n - 1);
      NextKeepsInv(Run(NewCase(bound), acts, n - 1), acts[n - 1]);
    }
  }

  /** In every run of both parties: whatever was consumed, or completed a step, is a completed receipt that the
      destination published for its one binding, whose run has an observed result, approved at both gates; and a
      bound step consumes at most one receipt. */
  lemma EvidenceIsComplete(bound: bool, acts: seq<Action>, r: Receipt)
    requires var s := Run(NewCase(bound), acts, |acts|).src; r in s.consumptions || s.completedBy == Some(r)
    ensures var c := Run(NewCase(bound), acts, |acts|);
      && r.state == Completed && r in c.src.mirror && r in c.dst.receipts
      && c.dst.bindings == 1 && c.dst.run == ResultObserved && c.dst.actionGate == Approved
      && c.dst.gate == Approved && c.dst.acceptance
      && (bound ==> |c.src.consumptions| <= 1 && c.src.step == StepCompleted)
  {
    RunKeepsInv(bound, acts, |acts|);
    var c := Run(NewCase(bound), acts, |acts|);
    assert r in c.dst.receipts;
  }

  // ---------------------------------------------------------------- from completed step to consumption

  /** The completed step was accounted for, or is just about to be. */
  predicate Accounted(s: Source) {
    s.bound && s.step == StepCompleted ==> s.consuming.Some? || |s.consumptions| == 1
  }

  /** No crash of the source between completing the step and recording the consumption, and no reviewed retry of
      a contained delegated step. */
  predicate KeepsAccount(s: Source, act: SourceAction) {
    && !(act == SourceCrash && s.bound && s.consuming.Some? && s.step == StepCompleted)
    && !(act == RetryStep && s.bound && s.step == StepContained && s.running)
  }

  /** An action of the source keeps completed steps accounted for exactly when it is neither of those two. */
  lemma AccountIsKeptIff(s: Source, exchanged: seq<Receipt>, act: SourceAction)
    requires SourceInv(s) && Accounted(s)
    ensures Accounted(SourceNext(s, exchanged, act)) <==> KeepsAccount(s, act)
  {
  }

  predicate KeepsAt(bound: bool, acts: seq<Action>, i: int) {
    0 <= i < |acts| && acts[i].AtSource? ==> KeepsAccount(Run(NewCase(bound), acts, i).src, acts[i].source)
  }

  lemma {:induction false} CompletedImpliesConsumed(bound: bool, acts: seq<Action>, n: nat)
    requires n <= |acts| && forall i {:trigger KeepsAt(bound, acts, i)} :: KeepsAt(bound, acts, i)
    ensures Accounted(Run(NewCase(bound), acts, n).src)
  {
    if n > 0 {
      CompletedImpliesConsumed(bound, acts, n - 1);
      RunKeepsInv(bound, acts, n - 1);
      assert KeepsAt(bound, acts, n - 1);
      var before := Run(NewCase(bound), acts, n - 1);
      if acts[n - 1].AtSource? {
        AccountIsKeptIff(before.src, before.exchanged, acts[n - 1].source);
      }
    }
  }

  /** In such runs a completed source step at rest has exactly one consumption, of a completed receipt whose run
      was approved at both gates and has an observed result. */
  lemma CompletedStepHasItsEvidence(acts: seq<Action>)
    requires forall i {:trigger KeepsAt(true, acts, i)} :: KeepsAt(true, acts, i)
    requires var s := Run(NewCase(true), acts, |acts|).src; s.step == StepCompleted && s.consuming.None?
    ensures var c := Run(NewCase(true), acts, |acts|);
      && |c.src.consumptions| == 1 && c.src.consumptions[0].state == Completed && c.dst.bindings == 1
      && c.dst.run == ResultObserved && c.dst.actionGate == Approved && c.dst.gate == Approved
  {
    CompletedImpliesConsumed(true, acts, |acts|);
    RunKeepsInv(true, acts, |acts|);
    var c := Run(NewCase(true), acts, |acts|);
    assert c.src.consumptions[0] in c.src.consumptions;
    EvidenceIsComplete(true, acts, c.src.consumptions[0]);
  }

  predicate Unaccountable(s: Source) {
    s.bound && s.step == StepCompleted && s.consuming.None? && s.consumptions == []
  }

  lemma UnaccountableStays(s: Source, exchanged: seq<Receipt>, act: SourceAction)
    requires Unaccountable(s)
    ensures Unaccountable(SourceNext(s, exchanged, act))
  {
  }

  /** A completed step without a consumption stays without one, whatever both parties do afterwards. */
  lemma {:induction false} NeverConsumedLater(c: Case, acts: seq<Action>, n: nat)
    requires Unaccountable(c.src) && n <= |acts|
    ensures Unaccountable(Run(c, acts, n).src)
  {
    if n > 0 {
      NeverConsumedLater(c, acts, n - 1);
      if acts[n - 1].AtSource? {
        UnaccountableStays(Run(c, acts, n - 1).src, Run(c, acts, n - 1).exchanged, acts[n - 1].source);
      }
    }
  }

  /** In every run of a bound request: the completed step is accounted for exactly when every action of the source
      has kept its account. */
  lemma {:induction false} AccountedIff(acts: seq<Action>, n: nat)
    requires n <= |acts|
    ensures Accounted(Run(NewCase(true), acts, n).src) <==> KeptUpTo(acts, n)
    ensures !Accounted(Run(NewCase(true), acts, n).src) ==> Unaccountable(Run(NewCase(true), acts, n).src)
  {
    if n > 0 {
      AccountedIff(acts, n - 1);
      RunKeepsInv(true, acts, n - 1);
      KeptOneMore(acts, n);
      var before := Run(NewCase(true), acts, n - 1);
      if acts[n - 1].AtSource? {
        AccountStep(before.src, before.exchanged, acts[n - 1].source);
      }
    }
  }

  ghost predicate KeptUpTo(acts: seq<Action>, n: nat) {
    forall i {:trigger KeepsAt(true, acts, i)} :: i < n ==> KeepsAt(true, acts, i)
  }

  lemma KeptOneMore(acts: seq<Action>, n: nat)
    requires 0 < n
    ensures KeptUpTo(acts, n) <==> KeptUpTo(acts, n - 1) && KeepsAt(true, acts, n - 1)
  {
  }

  lemma AccountStep(s: Source, exchanged: seq<Receipt>, act: SourceAction)
    requires SourceInv(s) && s.bound && (Accounted(s) || Unaccountable(s))
    ensures var next := SourceNext(s, exchanged, act);
      && (Accounted(next) <==> Accounted(s) && KeepsAccount(s, act)) && (Accounted(next) || Unaccountable(next))
  {
  }

  /** The crash window: the step is completed, and no run can ever record the consumption. */
  lemma CrashLosesConsumption(c: Case, acts: seq<Action>)
    requires SourceInv(c.src) && c.src.consuming.Some? && c.src.step == StepCompleted
    ensures var later := Run(Next(c, AtSource(SourceCrash)), acts, |acts|).src; later.step == StepCompleted && later.consumptions == []
  {
    NeverConsumedLater(Next(c, AtSource(SourceCrash)), acts, |acts|);
  }

  /** A reviewed retry runs the delegated step locally: it completes with no receipt, and none is ever consumed. */
  lemma RetryBypassesReceipt(c: Case, acts: seq<Action>)
    requires SourceInv(c.src) && c.src.bound && c.src.step == StepContained && c.src.running
    ensures var retried := Next(c, AtSource(RetryStep)); var later := Run(retried, acts, |acts|).src;
      retried.src.completedBy.None? && later.step == StepCompleted && later.consumptions == []
  {
    NeverConsumedLater(Next(c, AtSource(RetryStep)), acts, |acts|);
  }

  // ---------------------------------------------------------------- more than one receipt

  /** Approving the finished action again publishes a second completed receipt, different from the first. */
  lemma RepeatedApprovalPublishesAgain(d: Destination, at: int, later: int)
    requires d.bindings > 0 && d.run == ResultObserved
    ensures var n := |d.receipts|; var twice := DestinationNext(DestinationNext(d, true, Publish(at)), true, Publish(later)).receipts;
      && |twice| == n + 2 && twice[n].state == Completed && twice[n + 1].state == Completed && twice[n] != twice[n + 1]
  {
    var once := DestinationNext(d, true, Publish(at));
    assert once.receipts[|d.receipts|].revision == |d.receipts| + 1;
  }

  /** After one consumption, a second completed receipt is consumed as well exactly when the request is not bound
      to a source step. */
  lemma SecondConsumptionIff(s: Source, exchanged: seq<Receipt>, r: Receipt)
    requires SourceInv(s) && |s.consumptions| == 1 && Consumable(s, r)
    ensures |SourceNext(s, exchanged, ConsumeUnbound(r)).consumptions| == 2 <==> !s.bound
    ensures SourceNext(s, exchanged, BeginConsume(r)) == s
  {
  }

  // ---------------------------------------------------------------- what is reported, and what a refusal ends

  /** A published receipt carries the next revision and the time, and reports the run as it stands: completed exactly for an
      observed result, cancelled exactly for a cancelled run, uncertain exactly for one under recovery, else running. */
  lemma PublishedReceipt(d: Destination, submitted: bool, at: int)
    ensures var next := DestinationNext(d, submitted, Publish(at));
      if d.bindings == 0 || d.run == NoRun then next == d
      else
        && next == d.(receipts := next.receipts) && |next.receipts| == |d.receipts| + 1 && d.receipts <= next.receipts
        && var r := next.receipts[|d.receipts|];
           && r.revision == |d.receipts| + 1 && r.observedAt == at
           && (r.state == Completed <==> d.run == ResultObserved) && (r.state == Cancelled <==> d.run == RunCancelled)
           && (r.state == Uncertain <==> d.run == Recovering) && (r.state == Running <==> d.run in {Waiting, Active})
  {
  }

  /** The proposal was turned down or withdrawn before anything was bound to it, and nobody is accepting it. */
  predicate TurnedDown(d: Destination) {
    d.proposal in {RejectedProposal, CancelledBeforeStart} && d.bindings == 0 && !d.accepting
  }

  /** Rejecting a proposal that waits at its gate, and withdrawing one that is not being accepted, turn it down; an approval
      that is no longer admissible closes the gate; nothing else of the destination changes. */
  lemma RefusalEffects(d: Destination, submitted: bool)
    ensures DestinationNext(d, submitted, RejectProposal) ==
      if d.proposal == WaitingHuman && d.gate == Requested then d.(gate := RejectedGate, proposal := RejectedProposal) else d
    ensures DestinationNext(d, submitted, CancelProposal) ==
      if d.proposal in {Received, Inadmissible, WaitingHuman} && d.bindings == 0 && !d.accepting
      then d.(proposal := CancelledBeforeStart) else d
    ensures d.proposal == WaitingHuman && d.bindings == 0 && !d.accepting && d.gate == Requested ==>
      && DestinationNext(d, submitted, ApproveGate(false)) == d.(proposal := Inadmissible, gate := Expired)
      && DestinationNext(d, submitted, ApproveGate(true)) == d.(gate := Approved, accepting := true)
  {
  }

  /** Approving the local action of a waiting run starts it, approved already or not; rejecting it cancels the run, once. */
  lemma ActionEffects(d: Destination, submitted: bool)
    requires d.run == Waiting
    ensures d.actionGate == Requested ==>
      && DestinationNext(d, submitted, ApproveAction) == d.(actionGate := Approved, run := Active)
      && DestinationNext(d, submitted, RejectAction) == d.(actionGate := RejectedGate, run := RunCancelled)
    ensures d.actionGate == Approved ==>
      && DestinationNext(d, submitted, ApproveAction) == d.(run := Active) && DestinationNext(d, submitted, RejectAction) == d
    ensures d.actionGate !in {Requested, Approved} ==>
      DestinationNext(d, submitted, ApproveAction) == d == DestinationNext(d, submitted, RejectAction)
  {
  }

  /** A running run ends with a result, or is put under recovery by a failure or a crash; a review then cancels it. */
  lemma RunEffects(d: Destination, submitted: bool)
    ensures d.run == Active ==>
      && DestinationNext(d, submitted, ObserveRun) == d.(run := ResultObserved)
      && DestinationNext(d, submitted, FailRun) == d.(run := Recovering)
      && DestinationNext(d, submitted, DestinationCrash) == d.(receiving := false, accepting := false, run := Recovering)
    ensures d.run == Recovering ==> DestinationNext(d, submitted, ReviewRun) == d.(run := RunCancelled)
    ensures d.run != Active ==> DestinationNext(d, submitted, ObserveRun) == d == DestinationNext(d, submitted, FailRun)
  {
  }

  lemma TurnedDownStays(d: Destination, submitted: bool, act: DestinationAction)
    requires TurnedDown(d)
    ensures var next := DestinationNext(d, submitted, act); TurnedDown(next) && next.receipts == d.receipts
  {
  }

  /** A proposal that was turned down is never bound afterwards, and no receipt is ever published for it. */
  lemma {:induction false} TurnedDownForEver(c: Case, acts: seq<Action>, n: nat)
    requires TurnedDown(c.dst) && n <= |acts|
    ensures var later := Run(c, acts, n); TurnedDown(later.dst) && later.dst.receipts == c.dst.receipts
  {
    if n > 0 {
      TurnedDownForEver(c, acts, n - 1);
      if acts[n - 1].AtDestination? {
        TurnedDownStays(Run(c, acts, n - 1).dst, Run(c, acts, n - 1).submitted, acts[n - 1].destination);
      }
    }
  }

  lemma {:induction false} TurnedDownLater(bound: bool, acts: seq<Action>, n: nat, m: nat)
    requires n <= m <= |acts| && TurnedDown(Run(NewCase(bound), acts, n).dst)
    ensures TurnedDown(Run(NewCase(bound), acts, m).dst)
    decreases m
  {
    if n < m {
      TurnedDownLater(bound, acts, n, m - 1);
      if acts[m - 1].AtDestination? {
        var before := Run(NewCase(bound), acts, m - 1);
        TurnedDownStays(before.dst, before.submitted, acts[m - 1].destination);
      }
    }
  }

  /** So a rejected request is never completed: in every run in which its proposal is turned down at some point, no step is
      ever completed by a receipt and nothing is consumed. */
  lemma RejectedIsNeverConsumed(bound: bool, acts: seq<Action>, n: nat)
    requires n <= |acts| && TurnedDown(Run(NewCase(bound), acts, n).dst)
    ensures var s := Run(NewCase(bound), acts, |acts|).src; s.consumptions == [] && s.completedBy.None?
  {
    TurnedDownLater(bound, acts, n, |acts|);
    var s := Run(NewCase(bound), acts, |acts|).src;
    if s.consumptions != [] {
      EvidenceIsComplete(bound, acts, s.consumptions[0]);
    } else if s.completedBy.Some? {
      EvidenceIsComplete(bound, acts, s.completedBy.value);
    }
  }

  /** The source takes a receipt for its step exactly while it is running, the step waits for one, nothing else is being
      consumed, and the receipt is a completed one that it has mirrored and not consumed; pausing closes that door and
      starting opens it again. */
  lemma BeginConsumeIff(s: Source, exchanged: seq<Receipt>, r: Receipt)
    ensures SourceNext(s, exchanged, BeginConsume(r)) ==
      if && s.bound && s.running && s.step == AwaitingReceipt && s.consuming == None
         && r in s.mirror && r.state == Completed && r !in s.consumptions
      then s.(step := ReadyForHandoff, consuming := Some(r)) else s
    ensures SourceNext(s, exchanged, Pause) == s.(running := false)
    ensures !s.bound || s.step != NotStarted ==> SourceNext(s, exchanged, Start) == s.(running := true)
    ensures s.bound && s.step == NotStarted ==> SourceNext(s, exchanged, Start) == s.(running := true, step := AwaitingReceipt)
  {
  }

  /** The source mirrors the first receipt of each revision that the exchange holds, and no other. */
  lemma PullIff(s: Source, exchanged: seq<Receipt>, r: Receipt)
    ensures SourceNext(s, exchanged, Pull(r)) ==
      if r in exchanged && forall i :: 0 <= i < |s.mirror| ==> s.mirror[i].revision != r.revision
      then s.(mirror := s.mirror + [r]) else s
  {
  }

  /** The exchange takes the first published receipt of each revision, and no other. */
  lemma SendIff(c: Case, r: Receipt)
    ensures Next(c, Send(r)) ==
      if r in c.dst.receipts && forall i :: 0 <= i < |c.exchanged| ==> c.exchanged[i].revision != r.revision
      then c.(exchanged := c.exchanged + [r]) else c
  {
  }

  ghost predicate OneEach(receipts: seq<Receipt>) {
    forall i, j :: 0 <= i < j < |receipts| ==> receipts[i].revision != receipts[j].revision
  }

  lemma NextKeepsOneEach(c: Case, act: Action)
    requires OneEach(c.exchanged) && OneEach(c.src.mirror) && forall r :: r in c.src.mirror ==> r in c.exchanged
    ensures var next := Next(c, act);
      && OneEach(next.exchanged) && OneEach(next.src.mirror) && (forall r :: r in next.src.mirror ==> r in next.exchanged)
      && c.exchanged <= next.exchanged && c.src.mirror <= next.src.mirror
  {
    match act
    case Send(r) => SendIff(c, r);
    case AtSource(a) =>
      match a {
        case Pull(r) => PullIff(c.src, c.exchanged, r);
        case _ =>
      }
    case _ =>
  }

  /** In every run the exchange and the source's mirror hold at most one receipt of each revision, lose none, and the mirror
      holds only what the exchange holds. */
  lemma {:induction false} ReceiptsAreOneEach(bound: bool, acts: seq<Action>, n: nat)
    requires n <= |acts|
    ensures var c := Run(NewCase(bound), acts, n);
      && OneEach(c.exchanged) && OneEach(c.src.mirror) && (forall r :: r in c.src.mirror ==> r in c.exchanged)
      && (n > 0 ==> Run(NewCase(bound), acts, n - 1).exchanged <= c.exchanged)
  {
    if n > 0 {
      ReceiptsAreOneEach(bound, acts, n - 1);
      NextKeepsOneEach(Run(NewCase(bound), acts, n - 1), acts[n - 1]);
    }
  }

  /** A submitted request is received once; its proposal is made once, and admitted to its gate or found inadmissible. */
  lemma IntakeEffects(d: Destination, submitted: bool)
    ensures DestinationNext(d, submitted, Receive) == if submitted && !d.received then d.(received := true, receiving := true) else d
    ensures DestinationNext(d, submitted, MakeProposal) ==
      if d.receiving && d.proposal == NoProposal then d.(proposal := Received) else d
    ensures d.receiving && d.proposal == Received ==>
      && DestinationNext(d, submitted, Admit(true)) == d.(receiving := false, proposal := WaitingHuman, gate := Requested)
      && DestinationNext(d, submitted, Admit(false)) == d.(receiving := false, proposal := Inadmissible)
    ensures !d.receiving || d.proposal != Received ==> DestinationNext(d, submitted, Admit(true)) == d == DestinationNext(d, submitted, Admit(false))
  {
  }

  /** An accepted proposal is bound once, to a local run that was started for it. */
  lemma AcceptanceEffects(d: Destination, submitted: bool)
    requires d.accepting && d.acceptance == false && d.run == NoRun && d.bindings == 0
    ensures var accepted := DestinationNext(d, submitted, SaveAcceptance);
      var started := DestinationNext(accepted, submitted, StartLocalMission);
      var bound := DestinationNext(started, submitted, SaveBinding);
      var done := DestinationNext(bound, submitted, SaveBound);
      && done == d.(acceptance := true, run := Waiting, actionGate := Requested, bindings := 1, proposal := Bound, accepting := false)
      && DestinationNext(done, submitted, SaveBinding) == done && DestinationNext(d, submitted, StartLocalMission) == d
  {
  }

  /** Consuming a receipt for a bound step, undisturbed: the step is completed by it, and it is consumed. */
  lemma ReceiptIsConsumed(s: Source, exchanged: seq<Receipt>, r: Receipt)
    requires s.bound && s.running && s.step == AwaitingReceipt && s.consuming.None?
    requires r in s.mirror && r.state == Completed && r !in s.consumptions
    ensures var begun := SourceNext(s, exchanged, BeginConsume(r));
      var handed := SourceNext(begun, exchanged, Handoff);
      var completed := SourceNext(handed, exchanged, CompleteStep);
      SourceNext(completed, exchanged, RecordConsumption)
        == s.(step := StepCompleted, completedBy := Some(r), consumptions := s.consumptions + [r])
  {
  }
}
