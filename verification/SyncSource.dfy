/**
 The producing side of collaboration sync: compiling changed records into a chain of envelopes, and
 moving the acknowledged cursor. Every repository save is durable at once, so an error or a crash
 between two saves leaves what was saved before it.
 */
module SyncSource {
  import opened Common
  import opened SyncMirror

  datatype Record = Record(key: RecordKey, payload: string)

  /** `stored` is the envelope repository in cursor order, ties in order of saving; the rest is the cursor record. */
  datatype Source = Source(stored: seq<Envelope>, produced: nat, acked: nat, lastDigest: Option<Digest>)

  datatype AckError = ScopeMismatch | Unproduced | Regression

  type Latest = map<RecordKey, Envelope>

  const NEW_SOURCE := Source([], 0, 0, None)

  // ---------------------------------------------------------------- compiling

  function LatestOf(stored: seq<Envelope>, n: nat): Latest
    requires n <= |stored|
  {
    if n == 0 then map[] else LatestOf(stored, n - 1)[stored[n - 1].content.record := stored[n - 1]]
  }

  function Changed(latest: Latest, r: Record): bool {
    r.key !in latest || latest[r.key].content.payload != r.payload
  }

  function NextEnvelope(s: Source, latest: Latest, scope: Scope, hash: Content -> Digest, r: Record, at: int): Envelope {
    var cursor := s.produced + 1;
    var revision := if r.key in latest then latest[r.key].content.revision + 1 else 1;
    var content := Content(Derived(scope.workspaceId, scope.sourceId, cursor, r.key), scope.workspaceId, scope.sourceId,
                           cursor, r.key, revision, r.payload, s.lastDigest, at);
    Envelope(content, hash(content))
  }

  /** Saving under an id that exists replaces that envelope. */
  function Save(s: Source, e: Envelope): Source {
    var k := PositionOf(s.stored, e.content.id, |s.stored|);
    s.(stored := if k >= 0 then s.stored[k := e] else s.stored + [e])
  }

  function Advance(s: Source, e: Envelope): Source
    requires e.content.cursor >= 0
  {
    s.(produced := e.content.cursor, lastDigest := Some(e.digest))
  }

  function CompileOne(s: Source, latest: Latest, scope: Scope, hash: Content -> Digest, r: Record, at: int): (Source, Latest) {
    if !Changed(latest, r) then (s, latest)
    else
      var e := NextEnvelope(s, latest, scope, hash, r, at);
      (Advance(Save(s, e), e), latest[r.key := e])
  }

  function CompileFirst(s: Source, scope: Scope, hash: Content -> Digest, rs: seq<Record>, at: int, n: nat): (Source, Latest)
    requires n <= |rs|
  {
    if n == 0 then (s, LatestOf(s.stored, |s.stored|))
    else
      var (before, latest) := CompileFirst(s, scope, hash, rs, at, n - 1);
      CompileOne(before, latest, scope, hash, rs[n - 1], at)
  }

  function Compile(s: Source, scope: Scope, hash: Content -> Digest, rs: seq<Record>, at: int): Source {
    CompileFirst(s, scope, hash, rs, at, |rs|).0
  }

  function PendingFirst(s: Source, n: nat): seq<Envelope>
    requires n <= |s.stored|
  {
    if n == 0 then []
    else PendingFirst(s, n - 1) + if s.stored[n - 1].content.cursor > s.acked then [s.stored[n - 1]] else []
  }

  function Pending(s: Source): seq<Envelope> {
    PendingFirst(s, |s.stored|)
  }

  // ---------------------------------------------------------------- acknowledging

  predicate Answers(e: Envelope, ack: Ack) {
    e.content.cursor == ack.cursor && e.digest == ack.digest
  }

  predicate Answered(pending: seq<Envelope>, ack: Ack) {
    exists i :: 0 <= i < |pending| && Answers(pending[i], ack)
  }

  function Acknowledge(s: Source, pending: seq<Envelope>, ack: Ack): Result<Source, AckError> {
    if !Answered(pending, ack) then Err(ScopeMismatch)
    else if ack.cursor > s.produced then Err(Unproduced)
    else if ack.cursor < s.acked then Err(Regression)
    else Ok(s.(acked := ack.cursor))
  }

  /** An acknowledgement moves the acknowledged cursor, and that alone, exactly when it names a pending envelope by cursor and
      digest that was produced and lies not before the cursor. */
  lemma AcknowledgeAnswers(s: Source, pending: seq<Envelope>, ack: Ack)
    ensures var r := Acknowledge(s, pending, ack);
      var named := exists i :: 0 <= i < |pending| && pending[i].content.cursor == ack.cursor && pending[i].digest == ack.digest;
      && (r.Ok? <==> named && s.acked <= ack.cursor <= s.produced)
      && (r.Ok? ==> r.value == Source(s.stored, s.produced, ack.cursor, s.lastDigest))
      && (!named ==> r == Err(ScopeMismatch))
      && (named && ack.cursor > s.produced ==> r == Err(Unproduced))
      && (named && ack.cursor <= s.produced && ack.cursor < s.acked ==> r == Err(Regression))
  {
    if i :| 0 <= i < |pending| && pending[i].content.cursor == ack.cursor && pending[i].digest == ack.digest {
      assert Answers(pending[i], ack);
    }
  }

  /** The first `n` acknowledgements; an error ends the loop and keeps what was saved before. */
  function AcknowledgeFirst(s: Source, pending: seq<Envelope>, acks: seq<Ack>, n: nat): (Option<AckError>, Source)
    requires n <= |acks|
  {
    if n == 0 then (None, s)
    else
      var (error, before) := AcknowledgeFirst(s, pending, acks, n - 1);
      if error.Some? then (error, before)
      else
        var r := Acknowledge(before, pending, acks[n - 1]);
        if r.Err? then (Some(r.error), before) else (None, r.value)
  }

  lemma AckErrorEndsLoop(s: Source, pending: seq<Envelope>, acks: seq<Ack>, n: nat)
    requires n <= |acks| && AcknowledgeFirst(s, pending, acks, n).0.Some?
    ensures AcknowledgeFirst(s, pending, acks, |acks|) == AcknowledgeFirst(s, pending, acks, n)
    decreases |acks| - n
  {
    if n < |acks| {
      AckErrorEndsLoop(s, pending, acks, n + 1);
    }
  }

  // ---------------------------------------------------------------- the mutable service

  class Service {
    const scope: Scope
    const hash: Content -> Digest
    var stored: seq<Envelope>
    var produced: nat
    var acked: nat
    var lastDigest: Option<Digest>

    constructor (scope: Scope, hash: Content -> Digest)
      ensures this.scope == scope && this.hash == hash && Value() == NEW_SOURCE
    {
      this.scope, this.hash := scope, hash;
      stored, produced, acked, lastDigest := [], 0, 0, None;
    }

    function Value(): Source
      reads this
    {
      Source(stored, produced, acked, lastDigest)
    }

    method CompilePending(rs: seq<Record>, at: int) returns (pending: seq<Envelope>)
      modifies this
      ensures Value() == Compile(old(Value()), scope, hash, rs, at)
      ensures pending == Pending(Value())
    {
      var latest: Latest := map[];
      for i := 0 to |stored|
        invariant Value() == old(Value()) && latest == LatestOf(stored, i)
      {
        latest := latest[stored[i].content.record := stored[i]];
      }
      for i := 0 to |rs|
        invariant (Value(), latest) == CompileFirst(old(Value()), scope, hash, rs, at, i)
      {
        var r := rs[i];
        if r.key !in latest || latest[r.key].content.payload != r.payload {
          var e := NextEnvelope(Value(), latest, scope, hash, r, at);
          var k := PositionOf(stored, e.content.id, |stored|);
          stored := if k >= 0 then stored[k := e] else stored + [e];
          produced, lastDigest := e.content.cursor, Some(e.digest);
          latest := latest[r.key := e];
        }
      }
      pending := [];
      for i := 0 to |stored|
        invariant pending == PendingFirst(Value(), i) && Value() == Compile(old(Value()), scope, hash, rs, at)
      {
        if stored[i].content.cursor > acked {
          pending := pending + [stored[i]];
        }
      }
    }

    method RecordAcks(pending: seq<Envelope>, acks: seq<Ack>) returns (error: Option<AckError>)
      modifies this
      ensures (error, Value()) == AcknowledgeFirst(old(Value()), pending, acks, |acks|)
      ensures stored == old(stored) && produced == old(produced)
      ensures old(acked) <= old(produced) ==> old(acked) <= acked <= produced
    {
      for i := 0 to |acks|
        invariant (None, Value()) == AcknowledgeFirst(old(Value()), pending, acks, i)
        invariant stored == old(stored) && produced == old(produced) && lastDigest == old(lastDigest)
        invariant old(acked) <= old(produced) ==> old(acked) <= acked <= produced
      {
        var r := Acknowledge(Value(), pending, acks[i]);
        if r.Err? {
          AckErrorEndsLoop(old(Value()), pending, acks, i + 1);
          return Some(r.error);
        }
        acked := r.value.acked;
      }
      error := None;
    }
  }

  // ---------------------------------------------------------------- clean states

  /** The envelope belongs to this source, and is named and sealed as this source does. */
  predicate Own(e: Envelope, scope: Scope, hash: Content -> Digest) {
    && e.content.workspaceId == scope.workspaceId && e.content.sourceId == scope.sourceId
    && e.content.id == Derived(scope.workspaceId, scope.sourceId, e.content.cursor, e.content.record)
    && e.content.record.class_ in scope.allowed && e.digest == hash(e.content)
  }

  /** For one record, a later envelope carries a higher revision. */
  predicate RevisionsGrowAt(stored: seq<Envelope>, i: int, j: int) {
    0 <= i < j < |stored| && stored[i].content.record == stored[j].content.record ==>
      stored[i].content.revision < stored[j].content.revision
  }

  /** The repository is exactly the chain up to the produced cursor. */
  ghost predicate Clean(s: Source, scope: Scope, hash: Content -> Digest) {
    && |s.stored| == s.produced && s.acked <= s.produced
    && s.lastDigest == DigestBefore(s.stored, s.produced) && Linked(s.stored)
    && (forall e :: e in s.stored ==> Own(e, scope, hash))
    && (forall i, j {:trigger RevisionsGrowAt(s.stored, i, j)} :: RevisionsGrowAt(s.stored, i, j))
  }

  lemma CleanIsDeliverable(s: Source, scope: Scope, hash: Content -> Digest)
    requires Clean(s, scope, hash)
    ensures Deliverable(s.stored, scope) && Sealed(s.stored, hash)
  {
    forall i, j {:trigger IdsDiffer(s.stored, i, j)} ensures IdsDiffer(s.stored, i, j) {
      assert LinkedAt(s.stored, i) && LinkedAt(s.stored, j);
      if 0 <= i < j < |s.stored| {
        assert Own(s.stored[i], scope, hash) && Own(s.stored[j], scope, hash);
      }
    }
    forall i {:trigger InScopeAt(s.stored, i, scope)} ensures InScopeAt(s.stored, i, scope) {
      if 0 <= i < |s.stored| {
        assert Own(s.stored[i], scope, hash);
      }
    }
  }

  /** The latest envelope of a record is its last one. */
  lemma {:induction false} LatestIsLast(stored: seq<Envelope>, n: nat, key: RecordKey)
    requires n <= |stored|
    ensures key in LatestOf(stored, n) <==> exists i :: 0 <= i < n && stored[i].content.record == key
    ensures key in LatestOf(stored, n) ==>
      exists k :: 0 <= k < n && stored[k] == LatestOf(stored, n)[key] && stored[k].content.record == key
        && forall i :: k < i < n ==> stored[i].content.record != key
  {
    if n > 0 {
      LatestIsLast(stored, n - 1, key);
    }
  }

  lemma {:induction false} LatestOfPrefix(stored: seq<Envelope>, more: seq<Envelope>, n: nat)
    requires n <= |stored| && stored <= more
    ensures LatestOf(more, n) == LatestOf(stored, n)
  {
    if n > 0 {
      LatestOfPrefix(stored, more, n - 1);
    }
  }

  lemma CompileOneKeepsClean(s: Source, latest: Latest, scope: Scope, hash: Content -> Digest, r: Record, at: int)
    requires Clean(s, scope, hash) && latest == LatestOf(s.stored, |s.stored|) && r.key.class_ in scope.allowed
    ensures var (next, latest') := CompileOne(s, latest, scope, hash, r, at);
      && Clean(next, scope, hash) && next.acked == s.acked && s.stored <= next.stored
      && latest' == LatestOf(next.stored, |next.stored|)
  {
    if Changed(latest, r) {
      var e := NextEnvelope(s, latest, scope, hash, r, at);
      var next := CompileOne(s, latest, scope, hash, r, at).0;
      forall k | 0 <= k < |s.stored| ensures s.stored[k].content.id != e.content.id {
        assert LinkedAt(s.stored, k) && Own(s.stored[k], scope, hash);
      }
      assert next.stored == s.stored + [e];
      LinkedExtends(s.stored, e);
      LatestOfPrefix(s.stored, next.stored, |s.stored|);
      LatestIsLast(s.stored, |s.stored|, r.key);
      forall i, j {:trigger RevisionsGrowAt(next.stored, i, j)} ensures RevisionsGrowAt(next.stored, i, j) {
        assert RevisionsGrowAt(s.stored, i, j);
        if 0 <= i < j == |s.stored| && s.stored[i].content.record == r.key {
          var last :| 0 <= last < |s.stored| && s.stored[last] == latest[r.key]
            && (forall x :: last < x < |s.stored| ==> s.stored[x].content.record != r.key);
          assert RevisionsGrowAt(s.stored, i, last);
        }
      }
    }
  }

  /** How many of the first `n` envelopes are about the record. */
  function Count(stored: seq<Envelope>, n: nat, key: RecordKey): nat
    requires n <= |stored|
  {
    if n == 0 then 0 else Count(stored, n - 1, key) + if stored[n - 1].content.record == key then 1 else 0
  }

  /** The revision of an envelope is its number among those of its record. */
  predicate NumberedAt(stored: seq<Envelope>, i: int) {
    0 <= i < |stored| ==> stored[i].content.revision == Count(stored, i, stored[i].content.record) + 1
  }

  ghost predicate Numbered(stored: seq<Envelope>) {
    forall i {:trigger NumberedAt(stored, i)} :: NumberedAt(stored, i)
  }

  lemma {:induction false} CountOfPrefix(stored: seq<Envelope>, more: seq<Envelope>, n: nat, key: RecordKey)
    requires n <= |stored| && stored <= more
    ensures Count(more, n, key) == Count(stored, n, key)
  {
    if n > 0 {
      CountOfPrefix(stored, more, n - 1, key);
    }
  }

  /** So the latest envelope of a record carries the number of all of them. */
  lemma {:induction false} LatestIsCounted(stored: seq<Envelope>, n: nat, key: RecordKey)
    requires n <= |stored| && Numbered(stored)
    ensures Count(stored, n, key) == if key in LatestOf(stored, n) then LatestOf(stored, n)[key].content.revision else 0
  {
    if n > 0 {
      LatestIsCounted(stored, n - 1, key);
      assert NumberedAt(stored, n - 1);
    }
  }

  /** The envelope a changed record is compiled to: the next cursor after the last one's digest, the next revision of the
      record, its payload and the time, named and sealed as this source does. */
  predicate IsNextEnvelope(stored: seq<Envelope>, scope: Scope, hash: Content -> Digest, r: Record, at: int, e: Envelope) {
    && e.content.workspaceId == scope.workspaceId && e.content.sourceId == scope.sourceId
    && e.content.cursor == |stored| + 1 && e.content.previous == DigestBefore(stored, |stored|)
    && e.content.id == Derived(scope.workspaceId, scope.sourceId, |stored| + 1, r.key)
    && e.content.record == r.key && e.content.revision == Count(stored, |stored|, r.key) + 1
    && e.content.payload == r.payload && e.content.createdAt == at && e.digest == hash(e.content)
  }

  /** Compiling one record appends exactly that envelope if the last one stored for the record has another payload or there
      is none, and otherwise nothing. */
  lemma CompileOneAppends(s: Source, scope: Scope, hash: Content -> Digest, r: Record, at: int)
    requires Clean(s, scope, hash) && Numbered(s.stored) && r.key.class_ in scope.allowed
    ensures var latest := LatestOf(s.stored, |s.stored|); var next := CompileOne(s, latest, scope, hash, r, at).0;
      && (if r.key in latest && latest[r.key].content.payload == r.payload then next == s
          else
            && |next.stored| == |s.stored| + 1 && s.stored <= next.stored && next.produced == s.produced + 1
            && IsNextEnvelope(s.stored, scope, hash, r, at, next.stored[|s.stored|])
            && next.lastDigest == Some(next.stored[|s.stored|].digest) && next.acked == s.acked)
      && Numbered(next.stored)
  {
    var latest := LatestOf(s.stored, |s.stored|);
    CompileOneKeepsClean(s, latest, scope, hash, r, at);
    LatestIsCounted(s.stored, |s.stored|, r.key);
    if Changed(latest, r) {
      var e := NextEnvelope(s, latest, scope, hash, r, at);
      var next := CompileOne(s, latest, scope, hash, r, at).0;
      forall k | 0 <= k < |s.stored| ensures s.stored[k].content.id != e.content.id {
        assert LinkedAt(s.stored, k) && Own(s.stored[k], scope, hash);
      }
      assert next.stored == s.stored + [e];
      forall i {:trigger NumberedAt(next.stored, i)} ensures NumberedAt(next.stored, i) {
        assert NumberedAt(s.stored, i);
        if 0 <= i <= |s.stored| {
          CountOfPrefix(s.stored, next.stored, i, next.stored[i].content.record);
        }
      }
    }
  }

  /** Over any compilation from a clean state: the revisions of every record are one, two, three and so on. */
  lemma {:induction false} CompileKeepsNumbered(s: Source, scope: Scope, hash: Content -> Digest, rs: seq<Record>, at: int, n: nat)
    requires Clean(s, scope, hash) && Numbered(s.stored) && n <= |rs| && forall r :: r in rs ==> r.key.class_ in scope.allowed
    ensures Numbered(CompileFirst(s, scope, hash, rs, at, n).0.stored)
  {
    if n > 0 {
      CompileKeepsNumbered(s, scope, hash, rs, at, n - 1);
      CompileKeepsClean(s, scope, hash, rs, at, n - 1);
      CompileOneAppends(CompileFirst(s, scope, hash, rs, at, n - 1).0, scope, hash, rs[n - 1], at);
    }
  }

  /** Compiling from a clean state keeps it clean and only appends to the chain. */
  lemma {:induction false} CompileKeepsClean(s: Source, scope: Scope, hash: Content -> Digest, rs: seq<Record>, at: int, n: nat)
    requires Clean(s, scope, hash) && n <= |rs| && forall r :: r in rs ==> r.key.class_ in scope.allowed
    ensures var (next, latest) := CompileFirst(s, scope, hash, rs, at, n);
      && Clean(next, scope, hash) && next.acked == s.acked && s.stored <= next.stored
      && latest == LatestOf(next.stored, |next.stored|)
  {
    if n > 0 {
      CompileKeepsClean(s, scope, hash, rs, at, n - 1);
      var (before, latest) := CompileFirst(s, scope, hash, rs, at, n - 1);
      CompileOneKeepsClean(before, latest, scope, hash, rs[n - 1], at);
    }
  }

  /** When exactly the first `acked` stored envelopes lie at or below the acknowledged cursor, the rest is pending. */
  lemma {:induction false} PendingIsSuffix(s: Source, n: nat)
    requires n <= |s.stored| && forall i :: 0 <= i < |s.stored| ==> (s.stored[i].content.cursor <= s.acked <==> i < s.acked)
    ensures PendingFirst(s, n) == if n <= s.acked then [] else s.stored[s.acked..n]
  {
    if n > 0 {
      PendingIsSuffix(s, n - 1);
    }
  }

  /** A mirror that holds the whole chain shows, for each record, the last envelope produced for it. */
  lemma ViewShowsLatest(s: Source, scope: Scope, hash: Content -> Digest)
    requires Clean(s, scope, hash)
    ensures View(s.stored) == LatestOf(s.stored, |s.stored|)
  {
    var n := |s.stored|;
    forall key ensures key in View(s.stored) <==> key in LatestOf(s.stored, n)
      ensures key in View(s.stored) ==> View(s.stored)[key] == LatestOf(s.stored, n)[key]
    {
      var k := ViewIsHighest(s.stored, n, key);
      LatestIsLast(s.stored, n, key);
      if key in View(s.stored) {
        var last :| 0 <= last < n && s.stored[last] == LatestOf(s.stored, n)[key] && s.stored[last].content.record == key
          && (forall i :: last < i < n ==> s.stored[i].content.record != key);
        assert RevisionsGrowAt(s.stored, k, last);
      }
    }
  }

  // ---------------------------------------------------------------- when nothing is new

  /** Records with one key carry one payload. */
  predicate Consistent(rs: seq<Record>) {
    forall i, j :: 0 <= i < |rs| && 0 <= j < |rs| && rs[i].key == rs[j].key ==> rs[i].payload == rs[j].payload
  }

  /** After compiling, the latest payload of a record is that of its last occurrence in the list. */
  lemma {:induction false} CompiledPayload(s: Source, scope: Scope, hash: Content -> Digest, rs: seq<Record>, at: int, n: nat, i: nat)
    requires n <= |rs| && i < n && forall j :: i < j < n ==> rs[j].key != rs[i].key
    ensures var latest := CompileFirst(s, scope, hash, rs, at, n).1;
      rs[i].key in latest && latest[rs[i].key].content.payload == rs[i].payload
  {
    if i < n - 1 {
      CompiledPayload(s, scope, hash, rs, at, n - 1, i);
    }
  }

  lemma {:induction false} NothingChanged(s: Source, scope: Scope, hash: Content -> Digest, rs: seq<Record>, at: int, n: nat)
    requires n <= |rs|
    requires var latest := LatestOf(s.stored, |s.stored|); forall i :: 0 <= i < |rs| ==> !Changed(latest, rs[i])
    ensures CompileFirst(s, scope, hash, rs, at, n) == (s, LatestOf(s.stored, |s.stored|))
  {
    if n > 0 {
      NothingChanged(s, scope, hash, rs, at, n - 1);
    }
  }

  lemma {:induction false} CompileNeverShrinks(s: Source, scope: Scope, hash: Content -> Digest, rs: seq<Record>, at: int, n: nat, m: nat)
    requires m <= n <= |rs|
    ensures CompileFirst(s, scope, hash, rs, at, m).0.produced <= CompileFirst(s, scope, hash, rs, at, n).0.produced
    decreases n
  {
    if m < n {
      CompileNeverShrinks(s, scope, hash, rs, at, n - 1, m);
    }
  }

  /** Compiling the same records again produces nothing, exactly when no record occurs with two payloads. */
  lemma RecompileIsQuietIff(s: Source, scope: Scope, hash: Content -> Digest, rs: seq<Record>, at: int, later: int)
    requires Clean(s, scope, hash) && forall r :: r in rs ==> r.key.class_ in scope.allowed
    ensures var once := Compile(s, scope, hash, rs, at);
      Compile(once, scope, hash, rs, later) == once <==> Consistent(rs)
  {
    var once := Compile(s, scope, hash, rs, at);
    var latest := LatestOf(once.stored, |once.stored|);
    CompileKeepsClean(s, scope, hash, rs, at, |rs|);
    if Consistent(rs) {
      forall i | 0 <= i < |rs| ensures !Changed(latest, rs[i]) {
        var last := LastOccurrence(rs, i);
        CompiledPayload(s, scope, hash, rs, at, |rs|, last);
      }
      NothingChanged(once, scope, hash, rs, later, |rs|);
    } else {
      var i, j :| 0 <= i < |rs| && 0 <= j < |rs| && rs[i].key == rs[j].key && rs[i].payload != rs[j].payload;
      var last := LastOccurrence(rs, i);
      CompiledPayload(s, scope, hash, rs, at, |rs|, last);
      var odd := if rs[i].payload != rs[last].payload then i else j;
      assert Changed(latest, rs[odd]);
      SomethingChanged(once, scope, hash, rs, later, odd);
    }
  }

  lemma LastOccurrence(rs: seq<Record>, i: nat) returns (last: nat)
    requires i < |rs|
    ensures i <= last < |rs| && rs[last].key == rs[i].key
    ensures forall j :: last < j < |rs| ==> rs[j].key != rs[last].key
    decreases |rs| - i
  {
    if j :| i < j < |rs| && rs[j].key == rs[i].key {
      last := LastOccurrence(rs, j);
    } else {
      last := i;
    }
  }

  lemma {:induction false} SomethingChanged(s: Source, scope: Scope, hash: Content -> Digest, rs: seq<Record>, at: int, i: nat)
    requires i < |rs| && Changed(LatestOf(s.stored, |s.stored|), rs[i])
    ensures Compile(s, scope, hash, rs, at).produced > s.produced
  {
    var (before, latest) := CompileFirst(s, scope, hash, rs, at, i);
    CompileNeverShrinks(s, scope, hash, rs, at, i, 0);
    CompileNeverShrinks(s, scope, hash, rs, at, |rs|, i + 1);
    UnproducedIsUntouched(s, scope, hash, rs, at, i);
  }

  lemma {:induction false} UnproducedIsUntouched(s: Source, scope: Scope, hash: Content -> Digest, rs: seq<Record>, at: int, n: nat)
    requires n <= |rs|
    ensures var (next, latest) := CompileFirst(s, scope, hash, rs, at, n);
      next.produced > s.produced || (next == s && latest == LatestOf(s.stored, |s.stored|))
  {
    if n > 0 {
      UnproducedIsUntouched(s, scope, hash, rs, at, n - 1);
    }
  }

  /** One record with two payloads in one compilation: from the empty repository, compiling again produces more. */
  lemma TwoPayloadsAreNoisy(scope: Scope, hash: Content -> Digest, key: RecordKey, at: int, later: int)
    requires key.class_ in scope.allowed
    ensures var rs := [Record(key, "a"), Record(key, "b")]; var once := Compile(NEW_SOURCE, scope, hash, rs, at);
      Compile(once, scope, hash, rs, later) != once
  {
    var rs := [Record(key, "a"), Record(key, "b")];
    assert rs[0].payload != rs[1].payload;
    RecompileIsQuietIff(NEW_SOURCE, scope, hash, rs, at, later);
  }
}
