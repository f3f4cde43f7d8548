/**
 Many requests between two instances: every request is a case of its own, crashes hit all cases of an instance at
 once, and a source step is delegated by at most one request.
 */
module DelegationSystem {
  import opened Common
  import opened DelegationExchange
  import opened D = Delegation

  /** `steps` holds the source step bindings: a step of a source plan and the request it was delegated by. */
  datatype System = System(cases: map<string, Case>, steps: map<string, string>)

  /** Creating a request saves the request and then its step binding; `cut` says a crash came between the two. */
  datatype Action =
    | Create(id: string, step: Option<string>, cut: bool)
    | On(id: string, act: D.Action)
    | SourceDown
    | DestinationDown

  const EMPTY := System(map[], map[])

  predicate IsCrash(act: D.Action) {
    act == AtSource(SourceCrash) || act == AtDestination(DestinationCrash)
  }

  /** One action; an action that is not enabled changes nothing. */
  function Step(s: System, act: Action): System {
    match act
    case Create(id, step, cut) =>
      if id in s.cases || (step.Some? && step.value in s.steps) then s
      else if step.None? || cut then s.(cases := s.cases[id := NewCase(false)])
      else System(s.cases[id := NewCase(true)], s.steps[step.value := id])
    case On(id, a) => if id in s.cases && !IsCrash(a) then s.(cases := s.cases[id := D.Next(s.cases[id], a)]) else s
    case SourceDown => s.(cases := map id | id in s.cases :: D.Next(s.cases[id], AtSource(SourceCrash)))
    case DestinationDown => s.(cases := map id | id in s.cases :: D.Next(s.cases[id], AtDestination(DestinationCrash)))
  }

  function Steps(acts: seq<Action>, n: nat): System
    requires n <= |acts|
  {
    if n == 0 then EMPTY else Step(Steps(acts, n - 1), acts[n - 1])
  }

  /** Every bound step names a request that exists, and no request is bound to two steps. */
  ghost predicate BindingsInv(s: System) {
    && (forall step :: step in s.steps ==> s.steps[step] in s.cases && s.cases[s.steps[step]].src.bound)
    && (forall a, b :: a in s.steps && b in s.steps && s.steps[a] == s.steps[b] ==> a == b)
    && (forall id :: id in s.cases && s.cases[id].src.bound ==> exists step :: step in s.steps && s.steps[step] == id)
  }

  lemma NextKeepsBound(c: Case, act: D.Action)
    ensures D.Next(c, act).src.bound == c.src.bound
  {
  }

  /** What one action of the system is for one request that exists: an action of its case, or nothing. */
  function Own(act: Action, id: string): Option<D.Action> {
    match act
    case On(i, a) => if i == id && !IsCrash(a) then Some(a) else None
    case SourceDown => Some(AtSource(SourceCrash))
    case DestinationDown => Some(AtDestination(DestinationCrash))
    case _ => None
  }

  lemma StepOfCase(s: System, act: Action, id: string)
    requires id in s.cases
    ensures id in Step(s, act).cases
    ensures Step(s, act).cases[id] == if Own(act, id).Some? then D.Next(s.cases[id], Own(act, id).value) else s.cases[id]
  {
  }

  lemma CreatedCase(s: System, act: Action, id: string)
    requires id !in s.cases && id in Step(s, act).cases
    ensures act.Create? && Step(s, act).cases[id] == NewCase(act.step.Some? && !act.cut)
  {
  }

  lemma StepsChange(s: System, act: Action)
    ensures var next := Step(s, act);
      next.steps == s.steps
      || (act.Create? && act.step.Some? && act.step.value !in s.steps && act.id !in s.cases && !act.cut
          && next.steps == s.steps[act.step.value := act.id])
  {
  }

  lemma BoundIsKept(s: System, act: Action, id: string)
    requires id in s.cases
    ensures id in Step(s, act).cases && Step(s, act).cases[id].src.bound == s.cases[id].src.bound
  {
    StepOfCase(s, act, id);
    if Own(act, id).Some? {
      NextKeepsBound(s.cases[id], Own(act, id).value);
    }
  }

  lemma StepKeepsBindings(s: System, act: Action)
    requires BindingsInv(s)
    ensures BindingsInv(Step(s, act))
  {
    var next := Step(s, act);
    StepsChange(s, act);
    forall id | id in s.cases ensures id in next.cases && next.cases[id].src.bound == s.cases[id].src.bound {
      BoundIsKept(s, act, id);
    }
    forall id | id in next.cases && next.cases[id].src.bound ensures exists step :: step in next.steps && next.steps[step] == id {
      if id in s.cases {
        var step :| step in s.steps && s.steps[step] == id;
        assert step in next.steps && next.steps[step] == id;
      } else {
        CreatedCase(s, act, id);
        assert next.steps[act.step.value] == id;
      }
    }
  }

  lemma {:induction false} RunKeepsBindings(acts: seq<Action>, n: nat)
    requires n <= |acts|
    ensures BindingsInv(Steps(acts, n))
  {
    if n > 0 {
      RunKeepsBindings(acts, n - 1);
      StepKeepsBindings(Steps(acts, n - 1), acts[n - 1]);
    }
  }

  // ---------------------------------------------------------------- every request runs as a case

  lemma {:induction false} RunAgrees(c: Case, acts: seq<D.Action>, more: seq<D.Action>, n: nat)
    requires n <= |acts| && acts <= more
    ensures D.Run(c, more, n) == D.Run(c, acts, n)
  {
    if n > 0 {
      RunAgrees(c, acts, more, n - 1);
    }
  }

  lemma OneMore(c: Case, acts: seq<D.Action>, act: D.Action)
    ensures D.Run(c, acts + [act], |acts| + 1) == D.Next(D.Run(c, acts, |acts|), act)
  {
    RunAgrees(c, acts, acts + [act], |acts|);
  }

  lemma RunOfNone(c: Case)
    ensures D.Run(c, [], 0) == c
  {
  }

  lemma CaseCarries(s: System, act: Action, id: string, bound: bool, own: seq<D.Action>) returns (more: seq<D.Action>)
    requires id in s.cases && s.cases[id] == D.Run(NewCase(bound), own, |own|)
    ensures id in Step(s, act).cases && Step(s, act).cases[id] == D.Run(NewCase(bound), more, |more|)
  {
    StepOfCase(s, act, id);
    more := own;
    if Own(act, id).Some? {
      OneMore(NewCase(bound), own, Own(act, id).value);
      more := own + [Own(act, id).value];
    }
  }

  /** In every run of the system each request has gone through a run of the two-party protocol on its own. */
  lemma {:induction false} CaseIsRun(acts: seq<Action>, n: nat, id: string) returns (bound: bool, own: seq<D.Action>)
    requires n <= |acts| && id in Steps(acts, n).cases
    ensures Steps(acts, n).cases[id] == D.Run(NewCase(bound), own, |own|)
  {
    var before := Steps(acts, n - 1);
    var act := acts[n - 1];
    if id !in before.cases {
      CreatedCase(before, act, id);
      bound, own := act.step.Some? && !act.cut, [];
      RunOfNone(NewCase(bound));
    } else {
      bound, own := CaseIsRun(acts, n - 1, id);
      own := CaseCarries(before, act, id, bound, own);
    }
  }

  // ---------------------------------------------------------------- what holds across requests

  /** In every run with any number of requests: whatever any request consumed, or completed a step with, carries the
      whole chain of evidence of that request's own destination run. */
  lemma EveryConsumptionHasEvidence(acts: seq<Action>, id: string, r: Receipt)
    requires id in Steps(acts, |acts|).cases
    requires var s := Steps(acts, |acts|).cases[id].src; r in s.consumptions || s.completedBy == Some(r)
    ensures var c := Steps(acts, |acts|).cases[id];
      && r.state == Completed && r in c.dst.receipts && c.dst.bindings == 1 && c.dst.run == ResultObserved
      && c.dst.actionGate == Approved && c.dst.gate == Approved && c.dst.acceptance
  {
    var bound, own := CaseIsRun(acts, |acts|, id);
    EvidenceIsComplete(bound, own, r);
  }

  /** The receipt was consumed by a request that is bound to the source step. */
  predicate ConsumedFor(s: System, step: string, id: string, r: Receipt) {
    step in s.steps && s.steps[step] == id && id in s.cases && r in s.cases[id].src.consumptions
  }

  lemma BoundConsumesOnce(acts: seq<Action>, id: string)
    requires id in Steps(acts, |acts|).cases && Steps(acts, |acts|).cases[id].src.bound
    ensures var s := Steps(acts, |acts|).cases[id].src; |s.consumptions| <= 1 && (s.consumptions != [] ==> s.step == StepCompleted)
  {
    var bound, own := CaseIsRun(acts, |acts|, id);
    D.RunKeepsInv(bound, own, |own|);
  }

  lemma SameReceipt(s: System, step: string, id: string, r: Receipt, other: string, q: Receipt)
    requires ConsumedFor(s, step, id, r) && ConsumedFor(s, step, other, q) && |s.cases[id].src.consumptions| <= 1
    ensures id == other && r == q
  {
  }

  /** In every run a source step is fed by at most one receipt of at most one request. */
  lemma StepIsFedOnce(acts: seq<Action>, step: string, id: string, r: Receipt, other: string, q: Receipt)
    requires ConsumedFor(Steps(acts, |acts|), step, id, r) && ConsumedFor(Steps(acts, |acts|), step, other, q)
    ensures id == other && r == q && Steps(acts, |acts|).cases[id].src.step == StepCompleted
  {
    RunKeepsBindings(acts, |acts|);
    BoundConsumesOnce(acts, id);
    SameReceipt(Steps(acts, |acts|), step, id, r, other, q);
  }

  /** Once a step is delegated, no later action delegates it again or frees it. */
  lemma {:induction false} BindingIsForEver(acts: seq<Action>, n: nat, m: nat, step: string)
    requires n <= m <= |acts| && step in Steps(acts, n).steps
    ensures step in Steps(acts, m).steps && Steps(acts, m).steps[step] == Steps(acts, n).steps[step]
    decreases m
  {
    if n < m {
      BindingIsForEver(acts, n, m - 1, step);
    }
  }

  /** A crash between the two saves of a creation leaves a request that is bound to no step, for ever. */
  lemma {:induction false} CutCreationIsUnbound(acts: seq<Action>, n: nat, m: nat, id: string)
    requires n < m <= |acts| && id !in Steps(acts, n).cases && id in Steps(acts, n + 1).cases && acts[n].Create? && acts[n].cut
    ensures id in Steps(acts, m).cases && !Steps(acts, m).cases[id].src.bound
    decreases m
  {
    if n + 1 < m {
      CutCreationIsUnbound(acts, n, m - 1, id);
      var before, act := Steps(acts, m - 1), acts[m - 1];
      if Own(act, id).Some? {
        NextKeepsBound(before.cases[id], Own(act, id).value);
      }
    }
  }

  // ---------------------------------------------------------------- what single actions do

  /** A request for a step is created exactly when its id is new and the step is not delegated yet; it is bound to the step
      unless a crash comes between the saves. A request without a step needs only a new id. */
  lemma CreateEffect(s: System, id: string, step: Option<string>, cut: bool)
    ensures var next := Step(s, Create(id, step, cut));
      if id in s.cases || (step.Some? && step.value in s.steps) then next == s
      else
        && id in next.cases && next.cases.Keys == s.cases.Keys + {id} && (forall i :: i in s.cases ==> next.cases[i] == s.cases[i])
        && next.cases[id] == NewCase(next.cases[id].src.bound) && (next.cases[id].src.bound <==> step.Some? && !cut)
        && next.steps == if step.Some? && !cut then s.steps[step.value := id] else s.steps
  {
  }

  /** A crash of either instance hits every request; any other action is one of a single request. */
  lemma CrashEffect(s: System)
    ensures Step(s, SourceDown).cases.Keys == s.cases.Keys == Step(s, DestinationDown).cases.Keys
    ensures forall i :: i in s.cases ==>
      && Step(s, SourceDown).cases[i] == D.Next(s.cases[i], AtSource(SourceCrash))
      && Step(s, DestinationDown).cases[i] == D.Next(s.cases[i], AtDestination(DestinationCrash))
    ensures Step(s, SourceDown).steps == s.steps == Step(s, DestinationDown).steps
    ensures forall i, act :: i in s.cases && !IsCrash(act) ==>
      Step(s, On(i, act)) == System(s.cases[i := D.Next(s.cases[i], act)], s.steps)
  {
  }
}
