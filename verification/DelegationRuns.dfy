/** Runs of one delegated request, action by action from the start, that reach the states where a promise fails. */
module DelegationRuns {
  import opened Common
  import opened DelegationExchange
  import opened Delegation
  import opened Lists
  import opened DelegationSystem

  const FIRST := Receipt("request", "source", "workspace", 1, Completed, 0)

  const SECOND := Receipt("request", "source", "workspace", 2, Completed, 1)

  function Do(c: Case, acts: seq<Delegation.Action>): Case {
    Delegation.Run(c, acts, |acts|)
  }

  lemma DoFour(c: Case, acts: seq<Delegation.Action>)
    requires |acts| == 4
    ensures Do(c, acts) == Delegation.Next(Delegation.Next(Delegation.Next(Delegation.Next(c, acts[0]), acts[1]), acts[2]), acts[3])
  {
    assert Delegation.Run(c, acts, 1) == Delegation.Next(c, acts[0]);
    assert Delegation.Run(c, acts, 3) == Delegation.Next(Delegation.Run(c, acts, 2), acts[2]);
  }

  lemma {:induction false} RunIsFold(c: Case, acts: seq<Delegation.Action>, n: nat)
    requires n <= |acts|
    ensures Delegation.Run(c, acts, n) == Fold(Delegation.Next, c, acts, n)
  {
    if n > 0 {
      RunIsFold(c, acts, n - 1);
    }
  }

  lemma DoBoth(c: Case, acts: seq<Delegation.Action>, more: seq<Delegation.Action>)
    ensures Do(c, acts + more) == Do(Do(c, acts), more)
  {
    RunIsFold(c, acts + more, |acts + more|);
    RunIsFold(c, acts, |acts|);
    RunIsFold(Do(c, acts), more, |more|);
    FoldBoth(Delegation.Next, c, acts, more, |more|);
  }

  // ---------------------------------------------------------------- up to two completed receipts

  const OFFER: seq<Delegation.Action> :=
    [Submit, AtDestination(Receive), AtDestination(MakeProposal), AtDestination(Admit(true))]

  const ACCEPT: seq<Delegation.Action> :=
    [AtDestination(ApproveGate(true)), AtDestination(SaveAcceptance), AtDestination(StartLocalMission), AtDestination(SaveBinding)]

  const EXECUTE: seq<Delegation.Action> :=
    [AtDestination(SaveBound), AtDestination(ApproveAction), AtDestination(ObserveRun), AtDestination(Publish(0))]

  const DELIVER: seq<Delegation.Action> := [Send(FIRST), AtDestination(Publish(1)), Send(SECOND), AtSource(Start)]

  function Offered(bound: bool): Case {
    NewCase(bound).(submitted := true, dst := NEW_DESTINATION.(received := true, proposal := WaitingHuman, gate := Requested))
  }

  function Accepted(bound: bool): Case {
    Offered(bound).(dst := Offered(bound).dst.(
      gate := Approved, accepting := true, acceptance := true, run := Waiting, actionGate := Requested, bindings := 1))
  }

  function Executed(bound: bool): Case {
    Accepted(bound).(dst := Accepted(bound).dst.(
      proposal := Bound, accepting := false, actionGate := Approved, run := ResultObserved, receipts := [FIRST]))
  }

  /** Two completed receipts of one action are on the exchange, and the source mission runs. */
  function Delivered(bound: bool): Case {
    Executed(bound).(
      dst := Executed(bound).dst.(receipts := [FIRST, SECOND]), exchanged := [FIRST, SECOND],
      src := NewCase(bound).src.(running := true, step := if bound then AwaitingReceipt else NotStarted))
  }

  lemma OfferRuns(bound: bool)
    ensures Do(NewCase(bound), OFFER) == Offered(bound)
  {
    DoFour(NewCase(bound), OFFER);
  }

  lemma AcceptRuns(bound: bool)
    ensures Do(Offered(bound), ACCEPT) == Accepted(bound)
  {
    DoFour(Offered(bound), ACCEPT);
  }

  lemma ObservedRuns(bound: bool, observed: Case)
    requires var c := Accepted(bound);
      observed == c.(dst := c.dst.(proposal := Bound, accepting := false, actionGate := Approved, run := ResultObserved))
    ensures var saved := Delegation.Next(Accepted(bound), AtDestination(SaveBound));
      Delegation.Next(Delegation.Next(saved, AtDestination(ApproveAction)), AtDestination(ObserveRun)) == observed
  {
  }

  lemma ExecuteRuns(bound: bool)
    ensures Do(Accepted(bound), EXECUTE) == Executed(bound)
  {
    var c := Accepted(bound);
    var observed := c.(dst := c.dst.(proposal := Bound, accepting := false, actionGate := Approved, run := ResultObserved));
    ObservedRuns(bound, observed);
    DoFour(c, EXECUTE);
    assert [] + [FIRST] == [FIRST] && Delegation.Next(observed, AtDestination(Publish(0))) == Executed(bound);
  }

  lemma DeliverRuns(bound: bool)
    ensures Do(Executed(bound), DELIVER) == Delivered(bound)
  {
    var c := Executed(bound);
    DoFour(c, DELIVER);
    assert [] + [FIRST] == [FIRST] && [FIRST] + [SECOND] == [FIRST, SECOND];
    var sent := Delegation.Next(c, Send(FIRST));
    assert FIRST in c.dst.receipts && sent == c.(exchanged := [FIRST]);
    var published := Delegation.Next(sent, AtDestination(Publish(1)));
    assert published.dst.receipts == [FIRST, SECOND];
    assert SECOND == published.dst.receipts[1];
    assert Delegation.Next(published, Send(SECOND)).exchanged == [FIRST, SECOND];
  }

  /** Approving the finished action a second time publishes a second completed receipt: sixteen actions from the
      start put both on the exchange. */
  lemma TwoReceiptsAreReached(bound: bool)
    ensures Do(NewCase(bound), OFFER + ACCEPT + EXECUTE + DELIVER) == Delivered(bound)
  {
    OfferRuns(bound);
    AcceptRuns(bound);
    ExecuteRuns(bound);
    DeliverRuns(bound);
    DoBoth(NewCase(bound), OFFER, ACCEPT);
    DoBoth(NewCase(bound), OFFER + ACCEPT, EXECUTE);
    DoBoth(NewCase(bound), OFFER + ACCEPT + EXECUTE, DELIVER);
  }

  // ---------------------------------------------------------------- the failing runs

  const DELIVERY := OFFER + ACCEPT + EXECUTE + DELIVER

  const COMPLETE: seq<Delegation.Action> :=
    [AtSource(Pull(FIRST)), AtSource(BeginConsume(FIRST)), AtSource(Handoff), AtSource(CompleteStep)]

  const CONTAIN: seq<Delegation.Action> :=
    [AtSource(Pull(FIRST)), AtSource(BeginConsume(FIRST)), AtSource(Handoff), AtSource(SourceCrash)]

  const CONSUME_BOTH: seq<Delegation.Action> :=
    [AtSource(Pull(FIRST)), AtSource(Pull(SECOND)), AtSource(ConsumeUnbound(FIRST)), AtSource(ConsumeUnbound(SECOND))]

  lemma PullFirst(bound: bool)
    ensures Delegation.Next(Delivered(bound), AtSource(Pull(FIRST)))
      == Delivered(bound).(src := Delivered(bound).src.(mirror := [FIRST]))
  {
    assert FIRST in Delivered(bound).exchanged && [] + [FIRST] == [FIRST];
  }

  function HandingOver(): Case {
    Delivered(true).(src := Delivered(true).src.(mirror := [FIRST], step := HandingOff, consuming := Some(FIRST)))
  }

  lemma HandingRuns()
    ensures var pulled := Delegation.Next(Delivered(true), AtSource(Pull(FIRST)));
      Delegation.Next(Delegation.Next(pulled, AtSource(BeginConsume(FIRST))), AtSource(Handoff)) == HandingOver()
  {
    PullFirst(true);
    var pulled := Delivered(true).(src := Delivered(true).src.(mirror := [FIRST]));
    assert FIRST in pulled.src.mirror && Consumable(pulled.src, FIRST);
  }

  lemma CompleteRuns()
    ensures Do(Delivered(true), COMPLETE).src == Delivered(true).src.(
      mirror := [FIRST], step := StepCompleted, consuming := Some(FIRST), completedBy := Some(FIRST))
  {
    HandingRuns();
    DoFour(Delivered(true), COMPLETE);
    assert Do(Delivered(true), COMPLETE) == Delegation.Next(HandingOver(), AtSource(CompleteStep));
  }

  /** A run that completes the step with a receipt and then crashes: it never records the consumption. */
  lemma CrashRun(more: seq<Delegation.Action>)
    ensures var acts := DELIVERY + COMPLETE + [AtSource(SourceCrash)]; var s := Do(Do(NewCase(true), acts), more).src;
      s.step == StepCompleted && s.consumptions == []
  {
    TwoReceiptsAreReached(true);
    DoBoth(NewCase(true), DELIVERY, COMPLETE);
    CompleteRuns();
    var done := Do(NewCase(true), DELIVERY + COMPLETE);
    OneMore(NewCase(true), DELIVERY + COMPLETE, AtSource(SourceCrash));
    NeverConsumedLater(Delegation.Next(done, AtSource(SourceCrash)), more, |more|);
  }

  lemma ContainRuns()
    ensures Do(Delivered(true), CONTAIN).src == Delivered(true).src.(mirror := [FIRST], step := StepContained)
  {
    HandingRuns();
    DoFour(Delivered(true), CONTAIN);
    assert Do(Delivered(true), CONTAIN) == Delegation.Next(HandingOver(), AtSource(SourceCrash));
  }

  /** A run in which the handoff is cut off and the contained step is retried: it completes without any receipt. */
  lemma RetryRun(more: seq<Delegation.Action>)
    ensures var acts := DELIVERY + CONTAIN + [AtSource(RetryStep)]; var s := Do(NewCase(true), acts).src;
      s.step == StepCompleted && s.completedBy.None? && Do(Do(NewCase(true), acts), more).src.consumptions == []
  {
    TwoReceiptsAreReached(true);
    DoBoth(NewCase(true), DELIVERY, CONTAIN);
    ContainRuns();
    var contained := Do(NewCase(true), DELIVERY + CONTAIN);
    OneMore(NewCase(true), DELIVERY + CONTAIN, AtSource(RetryStep));
    NeverConsumedLater(Delegation.Next(contained, AtSource(RetryStep)), more, |more|);
  }

  /** A run of a request without a source step that consumes both receipts of the one action. */
  lemma TwoConsumptionsRun()
    ensures Do(NewCase(false), DELIVERY + CONSUME_BOTH).src.consumptions == [FIRST, SECOND]
  {
    TwoReceiptsAreReached(false);
    DoBoth(NewCase(false), DELIVERY, CONSUME_BOTH);
    DoFour(Delivered(false), CONSUME_BOTH);
    PullFirst(false);
    var c := Delivered(false);
    var pulled := c.(src := c.src.(mirror := [FIRST]));
    assert SECOND == c.exchanged[1] && [FIRST] + [SECOND] == [FIRST, SECOND];
    var both := Delegation.Next(pulled, AtSource(Pull(SECOND)));
    assert both.src == c.src.(mirror := [FIRST, SECOND]);
    assert both.src.mirror[0] == FIRST && both.src.mirror[1] == SECOND;
    var once := Delegation.Next(both, AtSource(ConsumeUnbound(FIRST)));
    assert [] + [FIRST] == [FIRST] && once.src == both.src.(consumptions := [FIRST]);
    assert SECOND !in once.src.consumptions;
  }
}
