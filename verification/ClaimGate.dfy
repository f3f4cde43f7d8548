/** The claim gate: one of many objects that share a store and decide who may perform an effect. */
module ClaimGate {
  import opened Common
  import opened EventStore
  import opened ProviderClaims

  type Rows = map<(string, AttemptRef), Row<Claim>>

  /** The rows a sweep has to close: open claims, of one workspace if one is named. */
  function OpenIn(scope: Option<string>, rows: Rows): set<(string, AttemptRef)> {
    set k | k in rows && rows[k].data.status == Claimed && (scope.None? || scope == Some(rows[k].data.workspaceId))
  }

  /** A row the sweep has reached is closed as unfinished and reported; any other is as it was. */
  ghost predicate SweptAt(was: Rows, rows: Rows, done: set<(string, AttemptRef)>, at: int, recovered: seq<Claim>, k: (string, AttemptRef)) {
    k in was && k in rows ==>
      if k in done then ClosedUnfinished(was[k].data, at, rows[k].data) && rows[k].data in recovered else rows[k] == was[k]
  }

  ghost predicate Swept(was: Rows, rows: Rows, done: set<(string, AttemptRef)>, at: int, recovered: seq<Claim>) {
    rows.Keys == was.Keys && forall k {:trigger SweptAt(was, rows, done, at, recovered, k)} :: SweptAt(was, rows, done, at, recovered, k)
  }

  /** A sweep under way: what is done and what is still to do are together the claims it has to close. */
  ghost predicate Sweeping(scope: Option<string>, was: Rows, rows: Rows, done: set<(string, AttemptRef)>, todo: set<(string, AttemptRef)>,
                           at: int, recovered: seq<Claim>)
  {
    done !! todo && done + todo == OpenIn(scope, was) && |recovered| == |done| && Swept(was, rows, done, at, recovered)
  }

  lemma SweepStarts(scope: Option<string>, rows: Rows, at: int)
    ensures Sweeping(scope, rows, rows, {}, OpenIn(scope, rows), at, [])
  {
  }

  lemma SweepEnds(scope: Option<string>, was: Rows, rows: Rows, done: set<(string, AttemptRef)>, at: int, recovered: seq<Claim>)
    requires Sweeping(scope, was, rows, done, {}, at, recovered)
    ensures Swept(was, rows, OpenIn(scope, was), at, recovered) && |recovered| == |OpenIn(scope, was)|
  {
    assert done + {} == done;
  }

  lemma SweepOne(scope: Option<string>, was: Rows, rows: Rows, done: set<(string, AttemptRef)>, todo: set<(string, AttemptRef)>,
                 at: int, recovered: seq<Claim>, k: (string, AttemptRef), row: Row<Claim>)
    requires Sweeping(scope, was, rows, done, todo, at, recovered) && k in todo && ClosedUnfinished(was[k].data, at, row.data)
    ensures Sweeping(scope, was, rows[k := row], done + {k}, todo - {k}, at, recovered + [row.data])
  {
    var next, swept, reported := rows[k := row], done + {k}, recovered + [row.data];
    forall x {:trigger SweptAt(was, next, swept, at, reported, x)} ensures SweptAt(was, next, swept, at, reported, x) {
      assert SweptAt(was, rows, done, at, recovered, x);
    }
  }

  lemma TurnIsOpen(s: Book, scope: Option<string>, was: Rows, done: set<(string, AttemptRef)>, todo: set<(string, AttemptRef)>,
                   at: int, recovered: seq<Claim>, k: (string, AttemptRef))
    requires BookInv(s) && Sweeping(scope, was, s.rows, done, todo, at, recovered) && k in todo
    ensures k in s.rows && s.rows[k] == was[k] && k == (CLAIM_KIND, k.1) && was[k].data.status == Claimed
  {
    assert SweptAt(was, s.rows, done, at, recovered, k);
    RowFact(s, k);
  }

  /** One turn of recovery closes an open claim as unfinished, and leaves a closed one and all others alone. */
  ghost predicate Turned(s: Book, next: Book, r: AttemptRef, at: int, recovered: Option<Claim>) {
    var key := (CLAIM_KIND, r);
    key in s.rows &&
    match s.rows[key].data.status
    case Claimed =>
      && recovered.Some? && ClosedUnfinished(s.rows[key].data, at, recovered.value)
      && key in next.rows && next.rows[key].data == recovered.value && next.rows == s.rows[key := next.rows[key]]
      && s.log <= next.log && |next.log| == |s.log| + 1
      && next.log[|s.log|].body == Body(s.rows[key].data.workspaceId, "providerExecutionClaim", r,
                                        "provider.execution.claim_recovery_required", 1, RecoveryKey(r), at, ClaimRecovered(r))
    case _ => recovered == None && next == s
  }

  lemma TurnKeepsSweep(s: Book, next: Book, scope: Option<string>, was: Rows, done: set<(string, AttemptRef)>,
                       todo: set<(string, AttemptRef)>, at: int, recovered: seq<Claim>, k: (string, AttemptRef), one: Option<Claim>)
    requires BookInv(s) && Sweeping(scope, was, s.rows, done, todo, at, recovered) && k in todo && Turned(s, next, k.1, at, one)
    ensures one.Some? && Sweeping(scope, was, next.rows, done + {k}, todo - {k}, at, recovered + [one.value])
  {
    TurnIsOpen(s, scope, was, done, todo, at, recovered, k);
    SweepOne(scope, was, s.rows, done, todo, at, recovered, k, next.rows[k]);
  }

  class Gate {
    const store: Store<Key, AttemptRef, Payload, Claim>

    constructor (store: Store<Key, AttemptRef, Payload, Claim>)
      ensures this.store == store
    {
      this.store := store;
    }

    method Acquire(workspaceId: string, a: Attempt, plan: Plan, at: int) returns (r: Result<Acquired, GateError>)
      requires BookInv(store.Value())
      modifies store
      ensures (r, store.Value()) == AcquireClaim(old(store.Value()), workspaceId, a, plan, at)
      ensures BookInv(store.Value())
      ensures r == Err(InvalidAttempt) <==>
        || a.reviewedRetry != a.prior.Some? || a.requestId != plan.requestId
        || a.requestDigest != plan.requestDigest || a.planDigest != plan.planDigest
      ensures r != Err(InvalidAttempt) ==>
        WellFormed(a) && Answers(old(store.Value()), store.Value(), workspaceId, a, at, r)
      ensures !(r.Ok? && r.value.acquired) ==> store.Value() == old(store.Value())
    {
      if !WellFormed(a) || !MatchesPlan(a, plan) {
        return Err(InvalidAttempt);
      }
      var expected := NewClaim(workspaceId, a, at);
      ghost var before := store.Value();
      var existing := Lookup(store.log, ClaimKey(a));
      if existing.Some? {
        AcquireAnswers(before, workspaceId, a, plan, at);
        if !SameClaim(existing.value, workspaceId, a) {
          return Err(ClaimCollision);
        }
        var known := RowOf(store.rows, CLAIM_KIND, AttemptRef(a));
        return Ok(Acquired(false, if known.Some? then known.value.data else expected));
      }
      var stored := store.AppendWithProjection(ClaimDraft(expected), Some(ClaimProjection(expected, 1)));
      if stored.Ok? && stored.value.created {
        r := Ok(Acquired(true, expected));
      } else {
        var raced := Lookup(store.log, ClaimKey(a));
        if raced.Some? && SameClaim(raced.value, workspaceId, a) {
          var known := RowOf(store.rows, CLAIM_KIND, AttemptRef(a));
          r := Ok(Acquired(false, if known.Some? then known.value.data else expected));
        } else {
          r := Err(if stored.Ok? then ClaimCollision else StoreFailure(stored.error));
        }
      }
      AcquireAnswers(before, workspaceId, a, plan, at);
    }

    method RecordOutcome(workspaceId: string, a: Attempt, o: Outcome) returns (r: Result<Claim, GateError>)
      requires BookInv(store.Value())
      modifies store
      ensures (r, store.Value()) == RecordClaimOutcome(old(store.Value()), workspaceId, a, o)
      ensures BookInv(store.Value())
      ensures r.Ok? <==> OutcomeMatches(a, o) && old(Recordable(store.Value(), workspaceId, a, o))
      ensures Records(old(store.Value()), store.Value(), workspaceId, a, o, r)
    {
      ghost var before := store.Value();
      var read := ReadForOutcome(State(store.log, store.rows, store.journal), workspaceId, a, o);
      match read {
        case Already(claim) => r := Ok(claim);
        case Refused(error) => r := Err(error);
        case Write(claim, version) =>
          var stored := store.AppendWithProjection(
            OutcomeDraft(claim.workspaceId, o), Some(ClaimProjection(WithOutcome(claim, o), version + 1)));
          r := if stored.Err? then Err(StoreFailure(stored.error))
               else Ok(if stored.value.row.Some? then stored.value.row.value.data else claim);
      }
      RecordAnswers(before, workspaceId, a, o);
    }

    /** One turn of recovery: the row is read again, and skipped when it is no longer open or was recovered before. */
    method RecoverOne(r: AttemptRef, at: int) returns (recovered: Option<Claim>)
      requires BookInv(store.Value()) && (CLAIM_KIND, r) in store.rows
      modifies store
      ensures BookInv(store.Value())
      ensures Turned(old(store.Value()), store.Value(), r, at, recovered)
    {
      ghost var before := store.Value();
      RowFact(before, (CLAIM_KIND, r));
      var row := store.rows[(CLAIM_KIND, r)];
      if !row.data.status.Claimed? {
        return None;
      }
      EventFact(before, RecoveryKey(r));
      var stored := store.AppendWithProjection(RecoveryDraft(row.data, at), Some(ClaimProjection(Recovered(row.data, at), row.version + 1)));
      WriteRecoveryLaw(before, row.data, at);
      recovered := Some(Recovered(row.data, at));
    }

    /** One more turn of a sweep. */
    method RecoverNext(k: (string, AttemptRef), at: int, ghost scope: Option<string>, ghost was: Rows,
                       ghost done: set<(string, AttemptRef)>, ghost todo: set<(string, AttemptRef)>, before: seq<Claim>)
      returns (recovered: seq<Claim>)
      requires BookInv(store.Value()) && Sweeping(scope, was, store.rows, done, todo, at, before) && k in todo
      modifies store
      ensures BookInv(store.Value()) && Sweeping(scope, was, store.rows, done + {k}, todo - {k}, at, recovered)
    {
      ghost var s := store.Value();
      TurnIsOpen(s, scope, was, done, todo, at, before, k);
      var one := RecoverOne(k.1, at);
      TurnKeepsSweep(s, store.Value(), scope, was, done, todo, at, before, k, one);
      recovered := before + [one.value];
    }

    /** Every unfinished claim in scope becomes recovery-required; no other claim changes. */
    method RecoverUnfinishedClaims(scope: Option<string>, at: int) returns (recovered: seq<Claim>)
      requires BookInv(store.Value())
      modifies store
      ensures BookInv(store.Value())
      ensures var open := OpenIn(scope, old(store.rows));
        Swept(old(store.rows), store.rows, open, at, recovered) && |recovered| == |open|
    {
      ghost var was := store.rows;
      var todo := OpenIn(scope, store.rows);
      ghost var done := {};
      recovered := [];
      SweepStarts(scope, was, at);
      while todo != {}
        invariant BookInv(store.Value()) && Sweeping(scope, was, store.rows, done, todo, at, recovered)
        decreases todo
      {
        var k :| k in todo;
        recovered := RecoverNext(k, at, scope, was, done, todo, recovered);
        done, todo := done + {k}, todo - {k};
      }
      SweepEnds(scope, was, store.rows, done, at, recovered);
    }
  }
}
