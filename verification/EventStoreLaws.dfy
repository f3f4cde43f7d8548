/** What the event store promises over every run of appends and imports. */
module EventStoreLaws {
  import opened Common
  import opened EventStore

  /** The uniqueness constraints of the tables; `Random` draws are numbered by log position. */
  ghost predicate Valid<K, I, P, D>(s: State<K, I, P, D>) {
    && (forall i, j :: 0 <= i < j < |s.log| ==> s.log[i].body.key != s.log[j].body.key && s.log[i].id != s.log[j].id)
    && (forall i :: 0 <= i < |s.log| && s.log[i].id.Random? ==> s.log[i].id.draw == i)
    && (forall k :: k in s.rows ==> 1 <= s.rows[k].sequence <= |s.log|)
  }

  datatype Op<K, I, P, D> =
    | AppendOp(draft: Draft<K, I, P>, projection: Option<Projection<I, D>>)
    | ImportOp(source: string, drafts: seq<Draft<K, I, P>>)

  function Apply<K(==), I(==), P(==), D(==)>(s: State<K, I, P, D>, op: Op<K, I, P, D>): State<K, I, P, D> {
    match op
    case AppendOp(draft, p) => Append(s, draft, p).1
    case ImportOp(source, drafts) => Import(s, source, drafts).1
  }

  function Run<K(==), I(==), P(==), D(==)>(s: State<K, I, P, D>, ops: seq<Op<K, I, P, D>>): State<K, I, P, D> {
    if ops == [] then s else Apply(Run(s, ops[..|ops| - 1]), ops[|ops| - 1])
  }

  /** The abstract value of the log: each idempotency key with the event it stands for. */
  ghost function KeyMap<K, I, P>(log: seq<Event<K, I, P>>): map<K, Event<K, I, P>> {
    map i | 0 <= i < |log| :: log[i].body.key := Lookup(log, log[i].body.key).value
  }

  ghost predicate RowsAdvance<I, D>(a: map<(string, I), Row<D>>, b: map<(string, I), Row<D>>) {
    forall k :: k in a ==>
      && k in b && b[k].workspaceId == a[k].workspaceId && a[k].version <= b[k].version
      && (a[k].version == b[k].version ==> a[k].data == b[k].data)
  }

  /** The later state still holds everything the earlier one recorded. */
  ghost predicate Extends<K, I, P, D>(a: State<K, I, P, D>, b: State<K, I, P, D>) {
    a.log <= b.log && RowsAdvance(a.rows, b.rows) && a.journal.Items <= b.journal.Items
  }

  lemma LookupIsUnique<K, I, P, D>(s: State<K, I, P, D>, e: Event<K, I, P>)
    requires Valid(s) && e in s.log
    ensures Lookup(s.log, e.body.key) == Some(e)
  {
  }

  /** One more event with a fresh key and a fresh id keeps the constraints. */
  lemma GrownIsValid<K, I, P, D>(s: State<K, I, P, D>, event: Event<K, I, P>, rows: map<(string, I), Row<D>>)
    requires Valid(s) && Lookup(s.log, event.body.key).None? && !IdUsed(s.log, event.id)
    requires event.id.Random? ==> event.id.draw == |s.log|
    requires forall k :: k in rows ==> 1 <= rows[k].sequence <= |s.log| + 1
    ensures Valid(s.(log := s.log + [event], rows := rows))
  {
    var log := s.log + [event];
    forall i, j | 0 <= i < j < |log| ensures log[i].body.key != log[j].body.key && log[i].id != log[j].id {
      if j == |s.log| {
        assert log[i] == s.log[i];
      }
    }
  }

  /** The events state what the drafts state, one for one and in order. */
  predicate BodiesOf<K(==), I(==), P(==)>(events: seq<Event<K, I, P>>, drafts: seq<Draft<K, I, P>>) {
    |events| == |drafts| && forall i :: 0 <= i < |drafts| ==> events[i].body == drafts[i].body
  }

  /** The log is the past with the first `n` drafts stamped and appended. */
  ghost predicate Extended<K, I, P>(past: seq<Event<K, I, P>>, log: seq<Event<K, I, P>>, drafts: seq<Draft<K, I, P>>, n: nat)
    requires n <= |drafts|
  {
    past <= log && |log| == |past| + n && forall k :: 0 <= k < n ==> log[|past| + k] == Stamp(drafts[k], |past| + k)
  }

  lemma {:induction false} InsertAllExtends<K, I, P>(past: seq<Event<K, I, P>>, drafts: seq<Draft<K, I, P>>)
    requires InsertAll(past, drafts).Ok?
    ensures Extended(past, InsertAll(past, drafts).value, drafts, |drafts|)
  {
    if drafts != [] {
      InsertAllExtends(past, drafts[..|drafts| - 1]);
    }
  }

  lemma InsertAllAppends<K, I, P>(log: seq<Event<K, I, P>>, drafts: seq<Draft<K, I, P>>)
    requires InsertAll(log, drafts).Ok?
    ensures log <= InsertAll(log, drafts).value && BodiesOf(InsertAll(log, drafts).value[|log|..], drafts)
  {
    InsertAllExtends(log, drafts);
    var added := InsertAll(log, drafts).value[|log|..];
    forall i | 0 <= i < |drafts| ensures added[i].body == drafts[i].body {
      assert added[i] == Stamp(drafts[i], |log| + i);
    }
  }

  lemma {:induction false} InsertAllKeepsValid<K, I, P, D>(s: State<K, I, P, D>, drafts: seq<Draft<K, I, P>>)
    requires Valid(s) && InsertAll(s.log, drafts).Ok?
    ensures Valid(s.(log := InsertAll(s.log, drafts).value))
  {
    if drafts == [] {
      assert s.(log := s.log) == s;
    } else {
      var n := |drafts| - 1;
      InsertAllKeepsValid(s, drafts[..n]);
      var before := InsertAll(s.log, drafts[..n]).value;
      GrownIsValid(s.(log := before), Stamp(drafts[n], |before|), s.rows);
    }
  }

  /** An append that creates adds one event and writes its projection; any other leaves the state alone. */
  lemma AppendShape<K, I, P, D>(s: State<K, I, P, D>, draft: Draft<K, I, P>, p: Option<Projection<I, D>>)
    ensures var (r, next) := Append(s, draft, p);
      if r.Ok? && r.value.created then
        && Lookup(s.log, draft.body.key).None? && !IdUsed(s.log, Stamp(draft, |s.log|).id)
        && (p.Some? ==> p.value.workspaceId == draft.body.workspaceId)
        && next.log == s.log + [Stamp(draft, |s.log|)] && next.journal == s.journal
        && Ok(next.rows) == if p.Some? then WriteRow(s.rows, p.value, |s.log| + 1) else Ok(s.rows)
      else next == s
  {
  }

  lemma WrittenRowAdvances<I, D>(rows: map<(string, I), Row<D>>, p: Projection<I, D>, sequence: nat)
    requires WriteRow(rows, p, sequence).Ok?
    ensures RowsAdvance(rows, WriteRow(rows, p, sequence).value)
  {
  }

  lemma AppendKeepsValid<K, I, P, D>(s: State<K, I, P, D>, draft: Draft<K, I, P>, p: Option<Projection<I, D>>)
    requires Valid(s)
    ensures Valid(Append(s, draft, p).1) && Extends(s, Append(s, draft, p).1)
  {
    AppendShape(s, draft, p);
    var (r, next) := Append(s, draft, p);
    if r.Ok? && r.value.created {
      GrownIsValid(s, Stamp(draft, |s.log|), next.rows);
      assert next == s.(log := s.log + [Stamp(draft, |s.log|)], rows := next.rows);
      if p.Some? {
        WrittenRowAdvances(s.rows, p.value, |s.log| + 1);
      }
    }
  }

  lemma ApplyKeepsValid<K, I, P, D>(s: State<K, I, P, D>, op: Op<K, I, P, D>)
    requires Valid(s)
    ensures Valid(Apply(s, op)) && Extends(s, Apply(s, op))
  {
    match op
    case AppendOp(draft, p) => AppendKeepsValid(s, draft, p);
    case ImportOp(_, drafts) =>
      if InsertAll(s.log, drafts).Ok? {
        InsertAllKeepsValid(s, drafts);
        InsertAllAppends(s.log, drafts);
      }
  }

  lemma ExtendsIsTransitive<K, I, P, D>(a: State<K, I, P, D>, b: State<K, I, P, D>, c: State<K, I, P, D>)
    requires Extends(a, b) && Extends(b, c)
    ensures Extends(a, c)
  {
  }

  /** Over every run: keys and ids stay unique, nothing recorded is lost, and row versions never go back. */
  lemma {:induction false} RunExtends<K, I, P, D>(s: State<K, I, P, D>, ops: seq<Op<K, I, P, D>>)
    requires Valid(s)
    ensures Valid(Run(s, ops)) && Extends(s, Run(s, ops))
  {
    if ops != [] {
      var before := Run(s, ops[..|ops| - 1]);
      RunExtends(s, ops[..|ops| - 1]);
      ApplyKeepsValid(before, ops[|ops| - 1]);
      ExtendsIsTransitive(s, before, Run(s, ops));
    }
  }

  lemma KeyMapHolds<K, I, P>(log: seq<Event<K, I, P>>, key: K)
    ensures key in KeyMap(log) <==> Lookup(log, key).Some?
    ensures key in KeyMap(log) ==> KeyMap(log)[key] == Lookup(log, key).value
  {
    if Lookup(log, key).Some? {
      var i :| 0 <= i < |log| && log[i] == Lookup(log, key).value;
      assert log[i].body.key in KeyMap(log);
    }
  }

  lemma KeyMapGrowsAt<K, I, P>(log: seq<Event<K, I, P>>, event: Event<K, I, P>, key: K)
    ensures key in KeyMap(log + [event]) <==> key in KeyMap(log) || key == event.body.key
    ensures key in KeyMap(log + [event]) ==> KeyMap(log + [event])[key] == if key == event.body.key then event else KeyMap(log)[key]
  {
    KeyMapHolds(log, key);
    KeyMapHolds(log + [event], key);
    LookupAppend(log, event, key);
  }

  lemma KeyMapGrows<K, I, P>(log: seq<Event<K, I, P>>, event: Event<K, I, P>)
    ensures KeyMap(log + [event]) == KeyMap(log)[event.body.key := event]
  {
    forall key ensures key in KeyMap(log + [event]) <==> key in KeyMap(log) || key == event.body.key {
      KeyMapGrowsAt(log, event, key);
    }
    forall key | key in KeyMap(log + [event])
      ensures KeyMap(log + [event])[key] == if key == event.body.key then event else KeyMap(log)[key] {
      KeyMapGrowsAt(log, event, key);
    }
  }

  /** The table holds this projection at this moment. */
  predicate IsCurrent<K, I(==), P, D(==)>(s: State<K, I, P, D>, q: Projection<I, D>) {
    && (q.kind, q.id) in s.rows
    && var row := s.rows[(q.kind, q.id)]; row.workspaceId == q.workspaceId && row.version == q.version && row.data == q.data
  }

  /** The same event in every respect but its time stamp. */
  predicate Restates<K(==), I(==), P(==)>(a: Body<K, I, P>, b: Body<K, I, P>) {
    && a.workspaceId == b.workspaceId && a.aggregateType == b.aggregateType && a.aggregateId == b.aggregateId
    && a.eventType == b.eventType && a.eventVersion == b.eventVersion && a.key == b.key && a.payload == b.payload
  }

  /** A used key never writes. It is acknowledged exactly for the body it stands for, and then without a projection, or with
      one that the table holds at this moment in the workspace of the event, whatever the event itself recorded. */
  lemma UsedKeyIff<K, I, P, D>(s: State<K, I, P, D>, draft: Draft<K, I, P>, q: Option<Projection<I, D>>)
    requires draft.body.key in KeyMap(s.log)
    ensures var (r, next) := Append(s, draft, q);
      && next == s
      && (r.Ok? <==>
            && Restates(KeyMap(s.log)[draft.body.key].body, draft.body)
            && (q.Some? ==> IsCurrent(s, q.value) && q.value.workspaceId == draft.body.workspaceId))
      && (r.Ok? ==> r.value == Appended(false, if q.Some? then Some(s.rows[(q.value.kind, q.value.id)]) else None))
      && (r.Err? ==> r.error == if q.Some? && !IsCurrent(s, q.value) then ProjectionCollision
                                else if q.Some? && q.value.workspaceId != draft.body.workspaceId then WorkspaceMismatch
                                else KeyCollision)
  {
    KeyMapHolds(s.log, draft.body.key);
  }

  /** Why an append under a free key is refused, in the order of the checks: the projection of another workspace, an id that
      the log holds, and a row that belongs to another workspace, is newer, or differs at the same version. */
  function Refused<K(==), I(==), P(==), D(==)>(s: State<K, I, P, D>, draft: Draft<K, I, P>, p: Option<Projection<I, D>>): Option<StoreError> {
    if p.Some? && p.value.workspaceId != draft.body.workspaceId then Some(WorkspaceMismatch)
    else if draft.id.Some? && exists j :: 0 <= j < |s.log| && s.log[j].id == Given(draft.id.value) then Some(DuplicateId)
    else if p.None? || (p.value.kind, p.value.id) !in s.rows then None
    else
      var row := s.rows[(p.value.kind, p.value.id)];
      if row.workspaceId != p.value.workspaceId then Some(WorkspaceImmutable)
      else if p.value.version < row.version then Some(VersionBackwards)
      else if p.value.version == row.version && p.value.data != row.data then Some(VersionCollision)
      else None
  }

  /** An append under a free key succeeds unless one of these reasons holds. It then adds the event at the end of the log, and
      the projection, if any, becomes the row, under the number of the event. */
  lemma FreeKeyAnswers<K, I, P, D>(s: State<K, I, P, D>, draft: Draft<K, I, P>, p: Option<Projection<I, D>>)
    requires Valid(s) && forall i :: 0 <= i < |s.log| ==> s.log[i].body.key != draft.body.key
    ensures var (r, next) := Append(s, draft, p);
      match Refused(s, draft, p)
      case Some(error) => r == Err(error) && next == s
      case None =>
        && next.journal == s.journal && |next.log| == |s.log| + 1 && next.log[..|s.log|] == s.log
        && next.log[|s.log|].body == draft.body
        && next.log[|s.log|].id == (if draft.id.Some? then Given(draft.id.value) else Random(|s.log|))
        && match p
           case None => r == Ok(Appended(true, None)) && next.rows == s.rows
           case Some(q) =>
             var row := Row(q.workspaceId, q.version, q.data, |s.log| + 1);
             r == Ok(Appended(true, Some(row))) && next.rows == s.rows[(q.kind, q.id) := row]
  {
    DrawIsFresh(s);
    assert IdUsed(s.log, Stamp(draft, |s.log|).id) <==>
      draft.id.Some? && exists j :: 0 <= j < |s.log| && s.log[j].id == Given(draft.id.value);
  }

  lemma FreeKey<K, I, P, D>(s: State<K, I, P, D>, draft: Draft<K, I, P>, p: Option<Projection<I, D>>)
    requires draft.body.key !in KeyMap(s.log)
    ensures var (r, next) := Append(s, draft, p);
      && (r.Ok? ==> r.value.created && next.log == s.log + [Stamp(draft, |s.log|)])
      && (r.Err? ==> next == s)
  {
    KeyMapHolds(s.log, draft.body.key);
  }

  /** One append is one step of a write-once map from idempotency key to event; a used key is acknowledged exactly for the
      same body, and with no projection but one that the table holds at this moment. */
  lemma AppendRefinesKeyMap<K, I, P, D>(s: State<K, I, P, D>, draft: Draft<K, I, P>, p: Option<Projection<I, D>>)
    ensures var (r, next) := Append(s, draft, p);
      var event := Stamp(draft, |s.log|);
      && (r.Ok? && r.value.created ==>
            draft.body.key !in KeyMap(s.log) && KeyMap(next.log) == KeyMap(s.log)[draft.body.key := event])
      && (r.Ok? && !r.value.created ==> next == s && draft.body.key in KeyMap(s.log))
      && (r.Err? ==> next == s)
      && (draft.body.key in KeyMap(s.log) ==>
            (r.Ok? <==>
               && Restates(KeyMap(s.log)[draft.body.key].body, draft.body)
               && (p.Some? ==> IsCurrent(s, p.value) && p.value.workspaceId == draft.body.workspaceId)))
  {
    if draft.body.key in KeyMap(s.log) {
      UsedKeyIff(s, draft, p);
    } else {
      FreeKey(s, draft, p);
      KeyMapGrows(s.log, Stamp(draft, |s.log|));
    }
  }

  /** The answer to a repeated append depends on nothing but the version its row has by now. */
  lemma ReplayAnswer<K, I, P, D>(later: State<K, I, P, D>, event: Event<K, I, P>, draft: Draft<K, I, P>, p: Projection<I, D>)
    requires Valid(later) && event in later.log && event.body == draft.body && p.workspaceId == draft.body.workspaceId
    requires (p.kind, p.id) in later.rows
    requires var row := later.rows[(p.kind, p.id)];
      row.workspaceId == p.workspaceId && p.version <= row.version && (row.version == p.version ==> row.data == p.data)
    ensures var (r, next) := Append(later, draft, Some(p)); var row := later.rows[(p.kind, p.id)];
      next == later && r == if row.version == p.version then Ok(Appended(false, Some(row))) else Err(ProjectionCollision)
  {
    LookupIsUnique(later, event);
  }

  /** Repeating a recorded append after any further run never writes; it is acknowledged as a
      duplicate exactly while the row still has the version written then. */
  lemma ReplayAfterRun<K, I, P, D>(
    s: State<K, I, P, D>, draft: Draft<K, I, P>, p: Projection<I, D>, ops: seq<Op<K, I, P, D>>)
    requires Valid(s) && Append(s, draft, Some(p)).0.Ok? && Append(s, draft, Some(p)).0.value.created
    ensures var later := Run(Append(s, draft, Some(p)).1, ops);
      var (r, next) := Append(later, draft, Some(p));
      && next == later
      && (p.kind, p.id) in later.rows
      && (r == Ok(Appended(false, Some(later.rows[(p.kind, p.id)]))) <==> later.rows[(p.kind, p.id)].version == p.version)
      && (r == Err(ProjectionCollision) <==> later.rows[(p.kind, p.id)].version > p.version)
  {
    var event := RecordedAfterRun(s, draft, p, ops);
    ReplayAnswer(Run(Append(s, draft, Some(p)).1, ops), event, draft, p);
  }

  // ---------------------------------------------------------------- a used key with another projection

  /** The answer when a recorded append is repeated with projection `q`, in terms of the table alone. */
  lemma ChangedAnswer<K, I, P, D>(later: State<K, I, P, D>, event: Event<K, I, P>, draft: Draft<K, I, P>, q: Projection<I, D>)
    requires Valid(later) && event in later.log && event.body == draft.body
    ensures var (r, next) := Append(later, draft, Some(q));
      && next == later
      && (r.Ok? <==> IsCurrent(later, q) && q.workspaceId == draft.body.workspaceId)
      && (r == Err(ProjectionCollision) <==> !IsCurrent(later, q))
  {
    LookupIsUnique(later, event);
  }

  /** Every changed projection of the row that was recorded is refused. */
  ghost predicate ChangesAreRefused<K(!new), I(!new), P(!new), D(!new)>(s: State<K, I, P, D>, draft: Draft<K, I, P>, p: Projection<I, D>) {
    forall q: Projection<I, D> {:trigger Append(s, draft, Some(q))} ::
      q != p && (q.kind, q.id) == (p.kind, p.id) ==> Append(s, draft, Some(q)) == (Err(ProjectionCollision), s)
  }

  /** Every other projection is refused, of whatever row. */
  ghost predicate OthersAreRefused<K(!new), I(!new), P(!new), D(!new)>(s: State<K, I, P, D>, draft: Draft<K, I, P>, p: Projection<I, D>) {
    forall q: Projection<I, D> {:trigger Append(s, draft, Some(q))} ::
      q != p ==> Append(s, draft, Some(q)).0.Err? && Append(s, draft, Some(q)).1 == s
  }

  /** No other row belongs to the workspace. */
  ghost predicate AloneInWorkspace<I, D>(rows: map<(string, I), Row<D>>, key: (string, I), workspaceId: string) {
    forall k :: k in rows && k != key ==> rows[k].workspaceId != workspaceId
  }

  /** The exact condition, in a state that still holds the event and what became of its row. */
  lemma ChangedProjectionIff<K(!new), I(!new), P(!new), D(!new)>(
    later: State<K, I, P, D>, event: Event<K, I, P>, draft: Draft<K, I, P>, p: Projection<I, D>)
    requires Valid(later) && event in later.log && event.body == draft.body && p.workspaceId == draft.body.workspaceId
    requires (p.kind, p.id) in later.rows
    requires var row := later.rows[(p.kind, p.id)];
      row.workspaceId == p.workspaceId && p.version <= row.version && (row.version == p.version ==> row.data == p.data)
    ensures var same := later.rows[(p.kind, p.id)].version == p.version;
      && (ChangesAreRefused(later, draft, p) <==> same)
      && (OthersAreRefused(later, draft, p) <==> same && AloneInWorkspace(later.rows, (p.kind, p.id), draft.body.workspaceId))
  {
    forall q: Projection<I, D>
      ensures Append(later, draft, Some(q)).1 == later
      ensures Append(later, draft, Some(q)).0.Ok? <==> IsCurrent(later, q) && q.workspaceId == draft.body.workspaceId
      ensures Append(later, draft, Some(q)).0 == Err(ProjectionCollision) <==> !IsCurrent(later, q)
    {
      ChangedAnswer(later, event, draft, q);
    }
    forall k | k in later.rows && later.rows[k].workspaceId == draft.body.workspaceId
      ensures Append(later, draft, Some(CurrentOf(later.rows, k))).0.Ok? {
      assert IsCurrent(later, CurrentOf(later.rows, k));
    }
    if OthersAreRefused(later, draft, p) {
      forall k | k in later.rows && k != (p.kind, p.id) ensures later.rows[k].workspaceId != draft.body.workspaceId {
        assert CurrentOf(later.rows, k) != p;
      }
    }
    var now := CurrentOf(later.rows, (p.kind, p.id));
    assert now != p <==> later.rows[(p.kind, p.id)].version != p.version;
  }

  /** The projection a row holds. */
  function CurrentOf<I(==), D>(rows: map<(string, I), Row<D>>, k: (string, I)): Projection<I, D>
    requires k in rows
  {
    Projection(k.0, k.1, rows[k].workspaceId, rows[k].version, rows[k].data)
  }

  /**
   Repeating a recorded key with a changed projection, after any further run: it is refused, with the state intact,
   exactly while the row still has the version written then; and with a projection of another row exactly if, besides,
   no other row belongs to the workspace.
   */
  lemma ChangedProjectionAfterRun<K(!new), I(!new), P(!new), D(!new)>(
    s: State<K, I, P, D>, draft: Draft<K, I, P>, p: Projection<I, D>, ops: seq<Op<K, I, P, D>>)
    requires Valid(s) && Append(s, draft, Some(p)).0.Ok? && Append(s, draft, Some(p)).0.value.created
    ensures var later := Run(Append(s, draft, Some(p)).1, ops);
      && (p.kind, p.id) in later.rows
      && (ChangesAreRefused(later, draft, p) <==> later.rows[(p.kind, p.id)].version == p.version)
      && (OthersAreRefused(later, draft, p) <==>
            && later.rows[(p.kind, p.id)].version == p.version
            && AloneInWorkspace(later.rows, (p.kind, p.id), draft.body.workspaceId))
  {
    var event := RecordedAfterRun(s, draft, p, ops);
    ChangedProjectionIff(Run(Append(s, draft, Some(p)).1, ops), event, draft, p);
  }

  /** After any further run the event is still there, and its row has not gone back. */
  lemma RecordedAfterRun<K, I, P, D>(
    s: State<K, I, P, D>, draft: Draft<K, I, P>, p: Projection<I, D>, ops: seq<Op<K, I, P, D>>) returns (event: Event<K, I, P>)
    requires Valid(s) && Append(s, draft, Some(p)).0.Ok? && Append(s, draft, Some(p)).0.value.created
    ensures var later := Run(Append(s, draft, Some(p)).1, ops);
      && Valid(later) && event in later.log && event.body == draft.body && p.workspaceId == draft.body.workspaceId
      && (p.kind, p.id) in later.rows
      && var row := later.rows[(p.kind, p.id)];
         row.workspaceId == p.workspaceId && p.version <= row.version && (row.version == p.version ==> row.data == p.data)
  {
    AppendShape(s, draft, Some(p));
    AppendKeepsValid(s, draft, Some(p));
    var written := Append(s, draft, Some(p)).1;
    RunExtends(written, ops);
    var later := Run(written, ops);
    event := Stamp(draft, |s.log|);
    assert written.log[|s.log|] == event && later.log[|s.log|] == event;
    assert written.rows[(p.kind, p.id)] == Row(p.workspaceId, p.version, p.data, |s.log| + 1);
  }

  // ---------------------------------------------------------------- the failing runs

  /** Two drafts without ids and with different keys in one workspace, with projections that can both be written. */
  ghost predicate TwoAppends<K, I, P, D>(
    first: Draft<K, I, P>, second: Draft<K, I, P>, p: Projection<I, D>, q: Projection<I, D>) {
    && first.id.None? && second.id.None? && first.body.key != second.body.key
    && p.workspaceId == q.workspaceId == first.body.workspaceId == second.body.workspaceId
    && (p.kind == q.kind && p.id == q.id ==> p.version < q.version)
  }

  /** Both of one row. */
  ghost predicate TwoVersions<K, I, P, D>(
    first: Draft<K, I, P>, second: Draft<K, I, P>, p: Projection<I, D>, q: Projection<I, D>) {
    TwoAppends(first, second, p, q) && p.kind == q.kind && p.id == q.id
  }

  lemma AppendToEmpty<K, I, P, D>(first: Draft<K, I, P>, p: Projection<I, D>)
    requires first.id.None? && p.workspaceId == first.body.workspaceId
    ensures var (r, next) := Append(State([], map[], map[]), first, Some(p));
      && r.Ok? && r.value.created && next.log == [Event(Random(0), first.body)]
      && next.rows == map[(p.kind, p.id) := Row(p.workspaceId, p.version, p.data, 1)]
  {
  }

  lemma AppendSecond<K, I, P, D>(
    s: State<K, I, P, D>, first: Draft<K, I, P>, second: Draft<K, I, P>, p: Projection<I, D>, q: Projection<I, D>)
    requires TwoAppends(first, second, p, q) && s.log == [Event(Random(0), first.body)]
    requires s.rows == map[(p.kind, p.id) := Row(p.workspaceId, p.version, p.data, 1)]
    ensures var next := Append(s, second, Some(q)).1;
      && next.log == [Event(Random(0), first.body), Event(Random(1), second.body)]
      && next.rows == s.rows[(q.kind, q.id) := Row(q.workspaceId, q.version, q.data, 2)]
  {
    assert s.log[..0] == [];
    assert Lookup(s.log, second.body.key).None?;
  }

  lemma AfterTwo<K, I, P, D>(
    first: Draft<K, I, P>, second: Draft<K, I, P>, p: Projection<I, D>, q: Projection<I, D>)
    requires TwoAppends(first, second, p, q)
    ensures var s := Run(State([], map[], map[]), [AppendOp(first, Some(p)), AppendOp(second, Some(q))]);
      && Valid(s) && s.log == [Event(Random(0), first.body), Event(Random(1), second.body)]
      && (q.kind, q.id) in s.rows && s.rows[(q.kind, q.id)] == Row(q.workspaceId, q.version, q.data, 2)
  {
    var empty: State<K, I, P, D> := State([], map[], map[]);
    var ops := [AppendOp(first, Some(p)), AppendOp(second, Some(q))];
    var one := Append(empty, first, Some(p)).1;
    AppendToEmpty(first, p);
    AppendSecond(one, first, second, p, q);
    assert ops[..1][..0] == [] && ops[..1] == [AppendOp(first, Some(p))];
    assert Run(empty, ops[..1]) == one;
    assert Run(empty, ops) == Append(one, second, Some(q)).1;
    RunExtends(empty, ops);
  }

  /** Two appends to one row from the empty store: repeating the first is then answered with a collision. */
  lemma LaterVersionCollides<K, I, P, D>(
    first: Draft<K, I, P>, second: Draft<K, I, P>, p: Projection<I, D>, q: Projection<I, D>)
    requires TwoVersions(first, second, p, q)
    ensures var s := Run(State([], map[], map[]), [AppendOp(first, Some(p)), AppendOp(second, Some(q))]);
      |s.log| == 2 && Append(s, first, Some(p)) == (Err(ProjectionCollision), s)
  {
    AfterTwo(first, second, p, q);
    var s := Run(State([], map[], map[]), [AppendOp(first, Some(p)), AppendOp(second, Some(q))]);
    assert s.log[0] in s.log;
    ReplayAnswer(s, s.log[0], first, p);
  }

  /** Two appends from the empty store, to one row or to two: repeating the first with the projection of the second is then
      acknowledged as a duplicate, although the first recorded another one. */
  lemma ChangedProjectionIsAcknowledged<K, I, P, D>(
    first: Draft<K, I, P>, second: Draft<K, I, P>, p: Projection<I, D>, q: Projection<I, D>)
    requires TwoAppends(first, second, p, q)
    ensures var s := Run(State([], map[], map[]), [AppendOp(first, Some(p)), AppendOp(second, Some(q))]);
      && q != p && (q.kind, q.id) in s.rows
      && Append(s, first, Some(q)) == (Ok(Appended(false, Some(s.rows[(q.kind, q.id)]))), s)
  {
    AfterTwo(first, second, p, q);
    var s := Run(State([], map[], map[]), [AppendOp(first, Some(p)), AppendOp(second, Some(q))]);
    assert s.log[0] in s.log;
    LookupIsUnique(s, s.log[0]);
  }

  /** The id or the key of draft `i` stands in the log already, or in an earlier draft. */
  ghost predicate Repeats<K, I, P>(log: seq<Event<K, I, P>>, drafts: seq<Draft<K, I, P>>, i: int)
    requires 0 <= i < |drafts|
  {
    || (exists j :: 0 <= j < |log| && Same(log[j], drafts[i]))
    || (exists j :: 0 <= j < i && (drafts[j].body.key == drafts[i].body.key || (drafts[i].id.Some? && drafts[j].id == drafts[i].id)))
  }

  ghost predicate Same<K, I, P>(e: Event<K, I, P>, d: Draft<K, I, P>) {
    e.body.key == d.body.key || (d.id.Some? && e.id == Given(d.id.value))
  }

  lemma DrawIsFresh<K, I, P, D>(s: State<K, I, P, D>)
    requires Valid(s)
    ensures forall j :: 0 <= j < |s.log| ==> s.log[j].id != Random(|s.log|)
  {
  }

  /** A draft is refused by a log exactly when the log holds its id or its key. */
  lemma RefusedIff<K, I, P>(log: seq<Event<K, I, P>>, d: Draft<K, I, P>)
    requires forall j :: 0 <= j < |log| ==> log[j].id != Random(|log|)
    ensures IdUsed(log, Stamp(d, |log|).id) || Lookup(log, d.body.key).Some? <==> exists j :: 0 <= j < |log| && Same(log[j], d)
  {
    if j :| 0 <= j < |log| && Same(log[j], d) {
      assert log[j].body.key == d.body.key || log[j].id == Stamp(d, |log|).id;
    }
    if Lookup(log, d.body.key).Some? {
      var j :| 0 <= j < |log| && log[j] == Lookup(log, d.body.key).value;
      assert Same(log[j], d);
    }
    if IdUsed(log, Stamp(d, |log|).id) {
      var j :| 0 <= j < |log| && log[j].id == Stamp(d, |log|).id;
      assert Same(log[j], d);
    }
  }

  /** What an extended log holds, seen from the log before and the drafts that were added. */
  lemma HeldIff<K, I, P>(past: seq<Event<K, I, P>>, log: seq<Event<K, I, P>>, drafts: seq<Draft<K, I, P>>)
    requires drafts != [] && Extended(past, log, drafts, |drafts| - 1)
    ensures (exists j :: 0 <= j < |log| && Same(log[j], drafts[|drafts| - 1])) <==> Repeats(past, drafts, |drafts| - 1)
  {
    var n := |drafts| - 1;
    var d := drafts[n];
    if j :| 0 <= j < |log| && Same(log[j], d) {
      if j >= |past| {
        assert log[|past| + (j - |past|)] == Stamp(drafts[j - |past|], j);
      }
    }
    if j :| 0 <= j < |past| && Same(past[j], d) {
      assert Same(log[j], d);
    } else if j :| 0 <= j < n && (drafts[j].body.key == d.body.key || (d.id.Some? && drafts[j].id == d.id)) {
      assert log[|past| + j] == Stamp(drafts[j], |past| + j) && Same(log[|past| + j], d);
    }
  }

  lemma InsertOne<K, I, P>(log: seq<Event<K, I, P>>, drafts: seq<Draft<K, I, P>>)
    requires drafts != [] && InsertAll(log, drafts[..|drafts| - 1]).Ok?
    ensures var before := InsertAll(log, drafts[..|drafts| - 1]).value; var d := drafts[|drafts| - 1];
      InsertAll(log, drafts).Err? <==> IdUsed(before, Stamp(d, |before|).id) || Lookup(before, d.body.key).Some?
  {
  }

  /** The next draft is refused exactly when it repeats an id or a key. */
  lemma NextDraftFailsIff<K, I, P, D>(s: State<K, I, P, D>, drafts: seq<Draft<K, I, P>>)
    requires Valid(s) && drafts != [] && InsertAll(s.log, drafts[..|drafts| - 1]).Ok?
    ensures InsertAll(s.log, drafts).Err? <==> Repeats(s.log, drafts, |drafts| - 1)
  {
    var front := drafts[..|drafts| - 1];
    InsertAllExtends(s.log, front);
    InsertAllKeepsValid(s, front);
    InsertOne(s.log, drafts);
    ExtendedFailsIff(s.(log := InsertAll(s.log, front).value), s.log, drafts);
  }

  lemma ExtendedFailsIff<K, I, P, D>(now: State<K, I, P, D>, past: seq<Event<K, I, P>>, drafts: seq<Draft<K, I, P>>)
    requires Valid(now) && drafts != [] && Extended(past, now.log, drafts[..|drafts| - 1], |drafts| - 1)
    ensures var d := drafts[|drafts| - 1];
      IdUsed(now.log, Stamp(d, |now.log|).id) || Lookup(now.log, d.body.key).Some? <==> Repeats(past, drafts, |drafts| - 1)
  {
    assert Extended(past, now.log, drafts, |drafts| - 1);
    DrawIsFresh(now);
    RefusedIff(now.log, drafts[|drafts| - 1]);
    HeldIff(past, now.log, drafts);
  }

  /** Inserting fails exactly when some id or key repeats within the log and the drafts. */
  lemma {:induction false} InsertAllFailsIff<K, I, P, D>(s: State<K, I, P, D>, drafts: seq<Draft<K, I, P>>)
    requires Valid(s)
    ensures InsertAll(s.log, drafts).Err? <==> exists i :: 0 <= i < |drafts| && Repeats(s.log, drafts, i)
  {
    if drafts != [] {
      var n := |drafts| - 1;
      InsertAllFailsIff(s, drafts[..n]);
      forall i | 0 <= i < n ensures Repeats(s.log, drafts[..n], i) <==> Repeats(s.log, drafts, i) {
      }
      if InsertAll(s.log, drafts[..n]).Ok? {
        NextDraftFailsIff(s, drafts);
      } else {
        var i :| 0 <= i < n && Repeats(s.log, drafts[..n], i);
        assert Repeats(s.log, drafts, i);
      }
    }
  }

  /** An import is all or nothing: it fails exactly when some id or key repeats within the log and the file, and
      otherwise adds every draft. */
  lemma ImportIsAtomic<K, I, P, D>(s: State<K, I, P, D>, source: string, drafts: seq<Draft<K, I, P>>)
    requires Valid(s)
    ensures var (r, next) := Import(s, source, drafts);
      && (r.Err? || r == Ok(AlreadyImported) ==> next == s)
      && (r.Ok? && r.value.Imported? ==> s.log <= next.log && next.rows == s.rows && BodiesOf(next.log[|s.log|..], drafts))
      && (r.Err? <==> source !in s.journal && exists i :: 0 <= i < |drafts| && Repeats(s.log, drafts, i))
      && (r == Ok(AlreadyImported) <==> source in s.journal)
      && (r.Ok? && source !in s.journal ==> r == Ok(Imported(|drafts|)) && next.journal == s.journal[source := |drafts|])
  {
    InsertAllFailsIff(s, drafts);
    if source !in s.journal && InsertAll(s.log, drafts).Ok? {
      InsertAllAppends(s.log, drafts);
    }
  }

  /** Importing a file again, after any run, changes nothing. */
  lemma ImportIsIdempotent<K, I, P, D>(
    s: State<K, I, P, D>, source: string, drafts: seq<Draft<K, I, P>>, ops: seq<Op<K, I, P, D>>, again: seq<Draft<K, I, P>>)
    requires Valid(s) && Import(s, source, drafts).0.Ok?
    ensures var later := Run(Import(s, source, drafts).1, ops); Import(later, source, again) == (Ok(AlreadyImported), later)
  {
    var once := Import(s, source, drafts).1;
    assert source in once.journal;
    assert once == Apply(s, ImportOp(source, drafts));
    ApplyKeepsValid(s, ImportOp(source, drafts));
    RunExtends(once, ops);
    assert (source, once.journal[source]) in once.journal.Items;
  }

  // ---------------------------------------------------------------- rebuilding projections

  /** The rows without the bookkeeping sequence number. */
  datatype Snapshot<D> = Snapshot(workspaceId: string, version: nat, data: D)

  ghost function Contents<I(!new), D>(rows: map<(string, I), Row<D>>): map<(string, I), Snapshot<D>> {
    map k | k in rows :: Snapshot(rows[k].workspaceId, rows[k].version, rows[k].data)
  }

  /** Latest snapshot wins: the reducer that replays a log whose events carry their projection. */
  ghost function Replay<K, I, P, D>(log: seq<Event<K, I, P>>, snap: Body<K, I, P> -> Option<Projection<I, D>>)
    : map<(string, I), Snapshot<D>>
  {
    if log == [] then map[]
    else
      var before := Replay(log[..|log| - 1], snap);
      var p := snap(log[|log| - 1].body);
      if p.None? then before
      else before[(p.value.kind, p.value.id) := Snapshot(p.value.workspaceId, p.value.version, p.value.data)]
  }

  /** Every append of the run writes exactly the projection its event carries, as snapshot repositories do. */
  ghost predicate SelfDescribing<K(!new), I(!new), P(!new), D(!new)>(
    ops: seq<Op<K, I, P, D>>, snap: Body<K, I, P> -> Option<Projection<I, D>>)
  {
    forall i :: 0 <= i < |ops| ==> ops[i].AppendOp? && ops[i].projection == snap(ops[i].draft.body)
  }

  lemma ReplayOfSnoc<K, I, P, D>(log: seq<Event<K, I, P>>, event: Event<K, I, P>, snap: Body<K, I, P> -> Option<Projection<I, D>>)
    ensures var p := snap(event.body);
      Replay(log + [event], snap) == if p.None? then Replay(log, snap)
        else Replay(log, snap)[(p.value.kind, p.value.id) := Snapshot(p.value.workspaceId, p.value.version, p.value.data)]
  {
    assert (log + [event])[..|log|] == log;
  }

  lemma ContentsOfUpdate<I(!new), D>(rows: map<(string, I), Row<D>>, k: (string, I), row: Row<D>)
    ensures Contents(rows[k := row]) == Contents(rows)[k := Snapshot(row.workspaceId, row.version, row.data)]
  {
  }

  lemma AppendReplays<K(!new), I(!new), P(!new), D(!new)>(
    s: State<K, I, P, D>, draft: Draft<K, I, P>, snap: Body<K, I, P> -> Option<Projection<I, D>>)
    requires Contents(s.rows) == Replay(s.log, snap)
    ensures var next := Append(s, draft, snap(draft.body)).1; Contents(next.rows) == Replay(next.log, snap)
  {
    var p := snap(draft.body);
    AppendShape(s, draft, p);
    ReplayOfSnoc(s.log, Stamp(draft, |s.log|), snap);
    if p.Some? {
      ContentsOfUpdate(s.rows, (p.value.kind, p.value.id), Row(p.value.workspaceId, p.value.version, p.value.data, |s.log| + 1));
    }
  }

  /** Rebuilding from the log gives back the projection table, after any run of self-describing appends. */
  lemma {:induction false} RebuildEqualsTable<K(!new), I(!new), P(!new), D(!new)>(
    ops: seq<Op<K, I, P, D>>, snap: Body<K, I, P> -> Option<Projection<I, D>>)
    requires SelfDescribing(ops, snap)
    ensures var s := Run(State([], map[], map[]), ops); Contents(s.rows) == Replay(s.log, snap)
  {
    if ops != [] {
      RebuildEqualsTable(ops[..|ops| - 1], snap);
      AppendReplays(Run(State([], map[], map[]), ops[..|ops| - 1]), ops[|ops| - 1].draft, snap);
    }
  }
}
