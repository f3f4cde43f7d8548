/**
 The canonical event store: an append-only event log with unique idempotency keys and unique
 event ids, a table of versioned projection rows, and a journal of imported files.

 The functions describe the store as a value; `Store` is the mutable object, whose methods work
 inside a transaction that is rolled back on the first failure.
 */
module EventStore {
  import opened Common

  /** An id supplied by the caller, or one drawn at random; two draws never coincide. */
  datatype EventId = Given(text: string) | Random(draw: nat)

  datatype Body<K, I, P> = Body(
    workspaceId: string, aggregateType: string, aggregateId: I,
    eventType: string, eventVersion: nat, key: K, occurredAt: int, payload: P)

  datatype Draft<K, I, P> = Draft(id: Option<string>, body: Body<K, I, P>)

  datatype Event<K, I, P> = Event(id: EventId, body: Body<K, I, P>)

  datatype Projection<I, D> = Projection(kind: string, id: I, workspaceId: string, version: nat, data: D)

  datatype Row<D> = Row(workspaceId: string, version: nat, data: D, sequence: nat)

  datatype State<K, !I(==), P, D> = State(
    log: seq<Event<K, I, P>>, rows: map<(string, I), Row<D>>, journal: map<string, nat>)

  datatype StoreError =
    | KeyCollision | ProjectionCollision | WorkspaceMismatch | DuplicateId | DuplicateKey
    | WorkspaceImmutable | VersionBackwards | VersionCollision

  datatype Appended<D> = Appended(created: bool, row: Option<Row<D>>)

  datatype Imported = AlreadyImported | Imported(count: nat)

  // ---------------------------------------------------------------- reading

  function Lookup<K(==), I, P>(log: seq<Event<K, I, P>>, key: K): (r: Option<Event<K, I, P>>)
    ensures r.Some? ==> r.value in log && r.value.body.key == key
    ensures r.None? <==> forall i :: 0 <= i < |log| ==> log[i].body.key != key
  {
    if log == [] then None
    else if log[|log| - 1].body.key == key then Some(log[|log| - 1])
    else Lookup(log[..|log| - 1], key)
  }

  lemma LookupAppend<K, I, P>(log: seq<Event<K, I, P>>, e: Event<K, I, P>, key: K)
    ensures Lookup(log + [e], key) == if e.body.key == key then Some(e) else Lookup(log, key)
  {
    assert (log + [e])[..|log|] == log;
  }

  function RowOf<I(==), D>(rows: map<(string, I), Row<D>>, kind: string, id: I): Option<Row<D>> {
    if (kind, id) in rows then Some(rows[(kind, id)]) else None
  }

  /** Two bodies state the same event: everything but the time stamp agrees. */
  predicate SameBody<K(==), I(==), P(==)>(a: Body<K, I, P>, b: Body<K, I, P>) {
    a == b.(occurredAt := a.occurredAt)
  }

  predicate RowMatches<I, D(==)>(row: Row<D>, p: Projection<I, D>) {
    row.workspaceId == p.workspaceId && row.version == p.version && row.data == p.data
  }

  function Stamp<K, I, P>(draft: Draft<K, I, P>, drawn: nat): Event<K, I, P> {
    Event(if draft.id.Some? then Given(draft.id.value) else Random(drawn), draft.body)
  }

  predicate IdUsed<K, I, P>(log: seq<Event<K, I, P>>, id: EventId) {
    exists i :: 0 <= i < |log| && log[i].id == id
  }

  // ---------------------------------------------------------------- appending

  function WriteRow<I(==), D(==)>(rows: map<(string, I), Row<D>>, p: Projection<I, D>, sequence: nat)
    : Result<map<(string, I), Row<D>>, StoreError>
  {
    var current := RowOf(rows, p.kind, p.id);
    if current.Some? && current.value.workspaceId != p.workspaceId then Err(WorkspaceImmutable)
    else if current.Some? && p.version < current.value.version then Err(VersionBackwards)
    else if current.Some? && p.version == current.value.version && p.data != current.value.data then Err(VersionCollision)
    else Ok(rows[(p.kind, p.id) := Row(p.workspaceId, p.version, p.data, sequence)])
  }

  /** The transaction of the base store: a repeated key is a no-op or a collision, otherwise event and row are written together. */
  function Transact<K(==), I(==), P(==), D(==)>(
    s: State<K, I, P, D>, draft: Draft<K, I, P>, p: Option<Projection<I, D>>)
    : (r: (Result<Appended<D>, StoreError>, State<K, I, P, D>))
  {
    var found := Lookup(s.log, draft.body.key);
    if found.Some? then
      if !SameBody(found.value.body, draft.body) then (Err(KeyCollision), s)
      else (Ok(Appended(false, if p.Some? then RowOf(s.rows, p.value.kind, p.value.id) else None)), s)
    else
      var event := Stamp(draft, |s.log|);
      if IdUsed(s.log, event.id) then (Err(DuplicateId), s)
      else if p.None? then (Ok(Appended(true, None)), s.(log := s.log + [event]))
      else
        var written := WriteRow(s.rows, p.value, |s.log| + 1);
        if written.Err? then (Err(written.error), s)
        else (Ok(Appended(true, RowOf(written.value, p.value.kind, p.value.id))),
              s.(log := s.log + [event], rows := written.value))
  }

  /** The store applications use: it also refuses a repeated key that comes with another projection. */
  function Append<K(==), I(==), P(==), D(==)>(
    s: State<K, I, P, D>, draft: Draft<K, I, P>, p: Option<Projection<I, D>>)
    : (r: (Result<Appended<D>, StoreError>, State<K, I, P, D>))
  {
    if p.Some? && Lookup(s.log, draft.body.key).Some?
       && (var row := RowOf(s.rows, p.value.kind, p.value.id); row.None? || !RowMatches(row.value, p.value)) then
      (Err(ProjectionCollision), s)
    else if p.Some? && p.value.workspaceId != draft.body.workspaceId then (Err(WorkspaceMismatch), s)
    else Transact(s, draft, p)
  }

  // ---------------------------------------------------------------- importing

  /** The log after inserting every draft, or the first uniqueness violation. */
  function InsertAll<K(==), I, P>(log: seq<Event<K, I, P>>, drafts: seq<Draft<K, I, P>>)
    : Result<seq<Event<K, I, P>>, StoreError>
  {
    if drafts == [] then Ok(log)
    else
      var before := InsertAll(log, drafts[..|drafts| - 1]);
      if before.Err? then before
      else
        var event := Stamp(drafts[|drafts| - 1], |before.value|);
        if IdUsed(before.value, event.id) then Err(DuplicateId)
        else if Lookup(before.value, event.body.key).Some? then Err(DuplicateKey)
        else Ok(before.value + [event])
  }

  function Import<K(==), I, P, D>(s: State<K, I, P, D>, source: string, drafts: seq<Draft<K, I, P>>)
    : (r: (Result<Imported, StoreError>, State<K, I, P, D>))
  {
    if source in s.journal then (Ok(AlreadyImported), s)
    else
      var inserted := InsertAll(s.log, drafts);
      if inserted.Err? then (Err(inserted.error), s)
      else (Ok(Imported(|drafts|)), s.(log := inserted.value, journal := s.journal[source := |drafts|]))
  }

  // ---------------------------------------------------------------- the mutable store

  class Store<K(==), !I(==), P(==), D(==)> {
    var log: seq<Event<K, I, P>>
    var rows: map<(string, I), Row<D>>
    var journal: map<string, nat>

    ghost function Value(): State<K, I, P, D>
      reads this
    {
      State(log, rows, journal)
    }

    constructor ()
      ensures Value() == State([], map[], map[])
    {
      log, rows, journal := [], map[], map[];
    }

    method AppendWithProjection(draft: Draft<K, I, P>, p: Option<Projection<I, D>>)
      returns (r: Result<Appended<D>, StoreError>)
      modifies this
      ensures (r, Value()) == Append(old(Value()), draft, p)
    {
      var found := Lookup(log, draft.body.key);
      if p.Some? && found.Some? {
        var row := RowOf(rows, p.value.kind, p.value.id);
        if row.None? || !RowMatches(row.value, p.value) {
          return Err(ProjectionCollision);
        }
      }
      if p.Some? && p.value.workspaceId != draft.body.workspaceId {
        return Err(WorkspaceMismatch);
      }
      if found.Some? {
        if !SameBody(found.value.body, draft.body) {
          return Err(KeyCollision);
        }
        return Ok(Appended(false, if p.Some? then RowOf(rows, p.value.kind, p.value.id) else None));
      }
      var savedLog := log;
      var event := Stamp(draft, |log|);
      if IdUsed(log, event.id) {
        return Err(DuplicateId);
      }
      log := log + [event];
      if p.None? {
        return Ok(Appended(true, None));
      }
      var written := WriteRow(rows, p.value, |log|);
      if written.Err? {
        log := savedLog;  // roll back
        return Err(written.error);
      }
      rows := written.value;
      r := Ok(Appended(true, RowOf(rows, p.value.kind, p.value.id)));
    }

    method ImportEvents(source: string, drafts: seq<Draft<K, I, P>>) returns (r: Result<Imported, StoreError>)
      modifies this
      ensures (r, Value()) == Import(old(Value()), source, drafts)
    {
      if source in journal {
        return Ok(AlreadyImported);
      }
      var savedLog := log;
      for i := 0 to |drafts|
        invariant rows == old(rows) && journal == old(journal)
        invariant InsertAll(savedLog, drafts[..i]) == Ok(log)
      {
        var event := Stamp(drafts[i], |log|);
        assert drafts[..i + 1][..i] == drafts[..i];
        if IdUsed(log, event.id) || Lookup(log, event.body.key).Some? {
          var error := if IdUsed(log, event.id) then DuplicateId else DuplicateKey;
          FailureIsFinal(savedLog, drafts, i + 1);
          log := savedLog;  // roll back
          return Err(error);
        }
        log := log + [event];
      }
      assert drafts[..|drafts|] == drafts;
      journal := journal[source := |drafts|];
      r := Ok(Imported(|drafts|));
    }
  }

  lemma FailureIsFinal<K, I, P>(log: seq<Event<K, I, P>>, drafts: seq<Draft<K, I, P>>, i: nat)
    requires i <= |drafts| && InsertAll(log, drafts[..i]).Err?
    ensures InsertAll(log, drafts) == InsertAll(log, drafts[..i])
    decreases |drafts| - i
  {
    if i < |drafts| {
      assert drafts[..i + 1][..i] == drafts[..i];
      FailureIsFinal(log, drafts, i + 1);
    } else {
      assert drafts[..i] == drafts;
    }
  }
}
