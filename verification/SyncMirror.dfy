/**
 Collaboration envelopes and the mirror that collects them. Each envelope carries its cursor and the
 digest of its predecessor.
 */
module SyncMirror {
  import opened Common

  datatype RecordKey = RecordKey(class_: string, id: string)

  /** Producers derive ids from scope, cursor and record; the wire may carry any id. */
  datatype EnvelopeId = Derived(workspaceId: string, sourceId: string, cursor: int, record: RecordKey) | Other(text: string)

  datatype Content = Content(
    id: EnvelopeId, workspaceId: string, sourceId: string, cursor: int, record: RecordKey,
    revision: int, payload: string, previous: Option<Digest>, createdAt: int)

  /** A digest is a token; producers compute it with a hash that is a parameter of everything that depends on it. */
  type Digest = int

  ghost predicate Injective(hash: Content -> Digest) {
    forall a, b :: hash(a) == hash(b) ==> a == b
  }

  datatype Envelope = Envelope(content: Content, digest: Digest)

  datatype AckState = Accepted | Duplicate

  datatype Ack = Ack(cursor: int, digest: Digest, state: AckState)

  datatype Reason =
    | InvalidEnvelopes | CrossWorkspace | UnknownSource | UnsupportedRecordClass | IdDigestConflict
    | CursorGap | CursorReuseOrRegression | UnexpectedPreviousDigest | PreviousDigestMismatch

  datatype Scope = Scope(workspaceId: string, sourceId: string, allowed: set<string>)

  /** What the mirror keeps for one workspace and source: the accepted envelopes, in order. */
  datatype SourceLog = SourceLog(lastCursor: int, lastDigest: Option<Digest>, log: seq<Envelope>)

  const EMPTY_LOG := SourceLog(0, None, [])

  /** The position of the envelope stored under an id among the first `n`, or -1. */
  function PositionOf(log: seq<Envelope>, id: EnvelopeId, n: nat): (k: int)
    requires n <= |log|
    ensures -1 <= k < n
    ensures k >= 0 ==> log[k].content.id == id
    ensures k < 0 ==> forall i :: 0 <= i < n ==> log[i].content.id != id
  {
    if n == 0 then -1 else if log[n - 1].content.id == id then n - 1 else PositionOf(log, id, n - 1)
  }

  function Find(log: seq<Envelope>, id: EnvelopeId): Option<Envelope> {
    var k := PositionOf(log, id, |log|);
    if k >= 0 then Some(log[k]) else None
  }

  // ---------------------------------------------------------------- the pure classification

  datatype Class = Rejected | DuplicateClass | Divergent | Gap | AcceptedClass

  /** The domain's classification of one envelope against a cursor; `None` as reason means accepted or duplicate. */
  function Classify(workspaceId: string, sourceId: string, lastCursor: int, lastDigest: Option<Digest>,
                    existing: Option<Envelope>, e: Envelope): (Class, Option<Reason>)
  {
    if e.content.workspaceId != workspaceId then (Rejected, Some(CrossWorkspace))
    else if e.content.sourceId != sourceId then (Rejected, Some(UnknownSource))
    else if existing.Some? then
      if existing.value.digest == e.digest then (DuplicateClass, None) else (Divergent, Some(IdDigestConflict))
    else if e.content.cursor <= lastCursor then (Divergent, Some(CursorReuseOrRegression))
    else if e.content.cursor > lastCursor + 1 then (Gap, Some(CursorGap))
    else if lastCursor == 0 then
      if e.content.previous.Some? then (Divergent, Some(UnexpectedPreviousDigest)) else (AcceptedClass, None)
    else if e.content.previous != lastDigest then (Divergent, Some(PreviousDigestMismatch))
    else (AcceptedClass, None)
  }

  // ---------------------------------------------------------------- the mirror

  /** One envelope of a batch; an accepted one moves cursor, digest and log together. */
  function Receive(s: SourceLog, scope: Scope, e: Envelope)
    : (Result<Ack, Reason>, SourceLog)
  {
    if e.content.workspaceId != scope.workspaceId then (Err(CrossWorkspace), s)
    else if e.content.sourceId != scope.sourceId then (Err(UnknownSource), s)
    else if e.content.record.class_ !in scope.allowed then (Err(UnsupportedRecordClass), s)
    else
      var existing := Find(s.log, e.content.id);
      if existing.Some? then
        if existing.value.digest != e.digest then (Err(IdDigestConflict), s)
        else (Ok(Ack(existing.value.content.cursor, existing.value.digest, Duplicate)), s)
      else if e.content.cursor != s.lastCursor + 1 then
        (Err(if e.content.cursor > s.lastCursor + 1 then CursorGap else CursorReuseOrRegression), s)
      else if s.lastCursor == 0 && e.content.previous.Some? then (Err(UnexpectedPreviousDigest), s)
      else if s.lastCursor != 0 && e.content.previous != s.lastDigest then (Err(PreviousDigestMismatch), s)
      else (Ok(Ack(e.content.cursor, e.digest, Accepted)),
            SourceLog(e.content.cursor, Some(e.digest), s.log + [e]))
  }

  /** The first `n` envelopes of a batch; the first refusal ends it, and what was accepted before stays. */
  function ReceiveFirst(s: SourceLog, scope: Scope, es: seq<Envelope>, n: nat): (Result<seq<Ack>, Reason>, SourceLog)
    requires n <= |es|
  {
    if n == 0 then (Ok([]), s)
    else
      var (acks, before) := ReceiveFirst(s, scope, es, n - 1);
      if acks.Err? then (acks, before)
      else
        var (ack, after) := Receive(before, scope, es[n - 1]);
        if ack.Err? then (Err(ack.error), after) else (Ok(acks.value + [ack.value]), after)
  }

  function ReceiveAll(s: SourceLog, scope: Scope, es: seq<Envelope>): (Result<seq<Ack>, Reason>, SourceLog) {
    ReceiveFirst(s, scope, es, |es|)
  }

  lemma RefusalEndsBatch(s: SourceLog, scope: Scope, es: seq<Envelope>, n: nat)
    requires n <= |es| && ReceiveFirst(s, scope, es, n).0.Err?
    ensures ReceiveAll(s, scope, es) == ReceiveFirst(s, scope, es, n)
    decreases |es| - n
  {
    if n < |es| {
      RefusalEndsBatch(s, scope, es, n + 1);
    }
  }

  // ---------------------------------------------------------------- what every log satisfies

  /** The digest that the envelope at position `i` must name as its predecessor. */
  function DigestBefore(log: seq<Envelope>, i: nat): Option<Digest>
    requires i <= |log|
  {
    if i == 0 then None else Some(log[i - 1].digest)
  }

  predicate LinkedAt(log: seq<Envelope>, i: int) {
    0 <= i < |log| ==> log[i].content.cursor == i + 1 && log[i].content.previous == DigestBefore(log, i)
  }

  ghost predicate Linked(log: seq<Envelope>) {
    forall i {:trigger LinkedAt(log, i)} :: LinkedAt(log, i)
  }

  predicate IdsDiffer(log: seq<Envelope>, i: int, j: int) {
    0 <= i < j < |log| ==> log[i].content.id != log[j].content.id
  }

  ghost predicate DistinctIds(log: seq<Envelope>) {
    forall i, j {:trigger IdsDiffer(log, i, j)} :: IdsDiffer(log, i, j)
  }

  predicate Sealed(log: seq<Envelope>, hash: Content -> Digest) {
    forall e :: e in log ==> e.digest == hash(e.content)
  }

  function Place(records: map<RecordKey, Envelope>, e: Envelope): map<RecordKey, Envelope> {
    if e.content.record !in records || e.content.revision > records[e.content.record].content.revision
    then records[e.content.record := e] else records
  }

  /** The record view as a fold of the first `n` envelopes of the log. */
  function ViewOf(log: seq<Envelope>, n: nat): map<RecordKey, Envelope>
    requires n <= |log|
  {
    if n == 0 then map[] else Place(ViewOf(log, n - 1), log[n - 1])
  }

  function View(log: seq<Envelope>): map<RecordKey, Envelope> {
    ViewOf(log, |log|)
  }

  lemma {:induction false} ViewOfPrefix(log: seq<Envelope>, more: seq<Envelope>, n: nat)
    requires n <= |log| && log <= more
    ensures ViewOf(more, n) == ViewOf(log, n)
  {
    if n > 0 {
      ViewOfPrefix(log, more, n - 1);
    }
  }

  ghost predicate Chained(s: SourceLog) {
    s.lastCursor == |s.log| && s.lastDigest == DigestBefore(s.log, |s.log|) && Linked(s.log) && DistinctIds(s.log)
  }

  /** An acknowledgement names an envelope the log really holds. */
  predicate Truthful(log: seq<Envelope>, ack: Ack) {
    1 <= ack.cursor <= |log| && log[ack.cursor - 1].digest == ack.digest
  }

  lemma LinkedExtends(log: seq<Envelope>, e: Envelope)
    requires Linked(log) && e.content.cursor == |log| + 1 && e.content.previous == DigestBefore(log, |log|)
    ensures Linked(log + [e])
  {
    forall i {:trigger LinkedAt(log + [e], i)} ensures LinkedAt(log + [e], i) {
      assert LinkedAt(log, i);
    }
  }

  lemma LinkedPrefix(log: seq<Envelope>, n: nat)
    requires Linked(log) && n <= |log|
    ensures Linked(log[..n]) && (DistinctIds(log) ==> DistinctIds(log[..n]))
  {
    forall i {:trigger LinkedAt(log[..n], i)} ensures LinkedAt(log[..n], i) {
      assert LinkedAt(log, i);
    }
    if DistinctIds(log) {
      forall i, j {:trigger IdsDiffer(log[..n], i, j)} ensures IdsDiffer(log[..n], i, j) {
        assert IdsDiffer(log, i, j);
      }
    }
  }

  lemma ReceiveKeepsChain(s: SourceLog, scope: Scope, e: Envelope)
    requires Chained(s)
    ensures var (ack, next) := Receive(s, scope, e);
      && Chained(next) && s.log <= next.log
      && (forall x :: x in next.log ==> x in s.log || x == e)
      && (ack.Ok? ==> Truthful(next.log, ack.value))
  {
    var (ack, next) := Receive(s, scope, e);
    if next != s {
      LinkedExtends(s.log, e);
      forall i, j {:trigger IdsDiffer(next.log, i, j)} ensures IdsDiffer(next.log, i, j) {
        assert IdsDiffer(s.log, i, j);
        assert 0 <= i < |s.log| ==> s.log[i] in s.log;
      }
    } else if ack.Ok? {
      assert LinkedAt(s.log, PositionOf(s.log, e.content.id, |s.log|));
    }
  }

  /** The envelope is one the mirror may hold at all. */
  predicate Admissible(scope: Scope, e: Envelope) {
    e.content.workspaceId == scope.workspaceId && e.content.sourceId == scope.sourceId && e.content.record.class_ in scope.allowed
  }

  predicate HoldsId(log: seq<Envelope>, id: EnvelopeId) {
    exists i :: 0 <= i < |log| && log[i].content.id == id
  }

  /**
   The answer of the mirror, from the chain it holds. Accepted, exactly: an admissible envelope under a new id, with the next
   cursor and the digest of the last one as its predecessor. A duplicate, exactly: an admissible one held under its id with
   its digest; it is acknowledged with the cursor it has in the log. Every other envelope is refused, nothing is stored, and
   the first of the checks that fails is the reason.
   */
  lemma ReceiveAnswers(s: SourceLog, scope: Scope, e: Envelope)
    requires Chained(s)
    ensures var (ack, next) := Receive(s, scope, e); var c := e.content;
      && (next.log == s.log + [e] || next == s)
      && (next.log == s.log + [e] <==>
            Admissible(scope, e) && !HoldsId(s.log, c.id) && c.cursor == |s.log| + 1 && c.previous == DigestBefore(s.log, |s.log|))
      && (next.log == s.log + [e] <==> ack == Ok(Ack(c.cursor, e.digest, Accepted)))
      && (forall i :: 0 <= i < |s.log| && Admissible(scope, e) && s.log[i].content.id == c.id ==>
            ack == if s.log[i].digest == e.digest then Ok(Ack(i + 1, e.digest, Duplicate)) else Err(IdDigestConflict))
      && (c.workspaceId != scope.workspaceId ==> ack == Err(CrossWorkspace))
      && (c.workspaceId == scope.workspaceId && c.sourceId != scope.sourceId ==> ack == Err(UnknownSource))
      && (c.workspaceId == scope.workspaceId && c.sourceId == scope.sourceId && c.record.class_ !in scope.allowed ==>
            ack == Err(UnsupportedRecordClass))
      && (Admissible(scope, e) && !HoldsId(s.log, c.id) ==>
            && (c.cursor > |s.log| + 1 ==> ack == Err(CursorGap))
            && (c.cursor <= |s.log| ==> ack == Err(CursorReuseOrRegression))
            && (c.cursor == |s.log| + 1 && s.log == [] && c.previous.Some? ==> ack == Err(UnexpectedPreviousDigest))
            && (c.cursor == |s.log| + 1 && s.log != [] && c.previous != Some(s.log[|s.log| - 1].digest) ==>
                  ack == Err(PreviousDigestMismatch)))
  {
    var k := PositionOf(s.log, e.content.id, |s.log|);
    if k >= 0 {
      assert LinkedAt(s.log, k);
      forall i | 0 <= i < |s.log| && s.log[i].content.id == e.content.id ensures i == k {
        assert IdsDiffer(s.log, i, k) && IdsDiffer(s.log, k, i);
      }
    }
  }

  /** Whatever arrives, in whatever order and however often: the log stays one linked chain, only grows, takes
      only what arrived, and the mirror acknowledges only what it holds. */
  lemma {:induction false} BatchKeepsChain(s: SourceLog, scope: Scope, es: seq<Envelope>, n: nat)
    requires Chained(s) && n <= |es|
    ensures var (acks, next) := ReceiveFirst(s, scope, es, n);
      && Chained(next) && s.log <= next.log
      && (forall x :: x in next.log ==> x in s.log || x in es)
      && (acks.Ok? ==> |acks.value| == n && forall a :: a in acks.value ==> Truthful(next.log, a))
  {
    if n > 0 {
      BatchKeepsChain(s, scope, es, n - 1);
      ReceiveKeepsChain(ReceiveFirst(s, scope, es, n - 1).1, scope, es[n - 1]);
    }
  }

  /** The mirror takes an envelope exactly when the pure classification accepts it, and refuses it for the same reason. */
  lemma MirrorAgreesWithClassify(s: SourceLog, scope: Scope, e: Envelope)
    requires Chained(s) && e.content.record.class_ in scope.allowed
    ensures var (class_, reason) := Classify(scope.workspaceId, scope.sourceId, s.lastCursor, s.lastDigest, Find(s.log, e.content.id), e);
      var (ack, next) := Receive(s, scope, e);
      && (class_ == AcceptedClass <==> next.log == s.log + [e])
      && (class_ == AcceptedClass <==> ack == Ok(Ack(e.content.cursor, e.digest, Accepted)))
      && (class_ == DuplicateClass <==> ack.Ok? && ack.value.state == Duplicate)
      && (ack.Err? <==> reason.Some?) && (ack.Err? ==> reason == Some(ack.error) && next == s)
  {
  }

  /** Two chains of sealed envelopes that end in the same digest are the same chain. */
  lemma {:induction false} EqualDigestsEqualLogs(a: seq<Envelope>, b: seq<Envelope>, hash: Content -> Digest)
    requires Injective(hash) && Linked(a) && Linked(b) && Sealed(a, hash) && Sealed(b, hash)
    requires a != [] && b != [] && a[|a| - 1].digest == b[|b| - 1].digest
    ensures a == b
    decreases |a|
  {
    var n := |a|;
    assert a[n - 1] in a && b[|b| - 1] in b;
    assert LinkedAt(a, n - 1) && LinkedAt(b, |b| - 1);
    assert |b| == n && a[n - 1] == b[n - 1];
    if n > 1 {
      LinkedPrefix(a, n - 1);
      LinkedPrefix(b, n - 1);
      EqualDigestsEqualLogs(a[..n - 1], b[..n - 1], hash);
    }
    assert a == a[..n - 1] + [a[n - 1]] && b == b[..n - 1] + [b[n - 1]];
  }

  /** The mirror never recomputes a digest, so sealing is needed: an unsealed envelope is accepted too. */
  lemma UnsealedIsAccepted(e: Envelope, payload: string, allowed: set<string>)
    requires e.content.cursor == 1 && e.content.previous.None? && e.content.record.class_ in allowed
    requires payload != e.content.payload
    ensures var altered := e.(content := e.content.(payload := payload));
      var afterOriginal := Receive(EMPTY_LOG, Scope(e.content.workspaceId, e.content.sourceId, allowed), e).1;
      var afterAltered := Receive(EMPTY_LOG, Scope(e.content.workspaceId, e.content.sourceId, allowed), altered).1;
      Chained(afterOriginal) && Chained(afterAltered) && afterOriginal.lastDigest == afterAltered.lastDigest && afterOriginal.log != afterAltered.log
  {
    var altered := e.(content := e.content.(payload := payload));
    ReceiveKeepsChain(EMPTY_LOG, Scope(e.content.workspaceId, e.content.sourceId, allowed), e);
    ReceiveKeepsChain(EMPTY_LOG, Scope(e.content.workspaceId, e.content.sourceId, allowed), altered);
    assert [e][0] != [altered][0];
  }

  /** The envelope stands at its cursor in the produced chain. */
  predicate OnChain(e: Envelope, produced: seq<Envelope>) {
    1 <= e.content.cursor <= |produced| && produced[e.content.cursor - 1] == e
  }

  lemma ReceiveKeepsPrefix(s: SourceLog, scope: Scope, e: Envelope, produced: seq<Envelope>)
    requires Chained(s) && s.log <= produced && OnChain(e, produced)
    ensures Receive(s, scope, e).1.log <= produced
  {
  }

  /** Lossy, repeated, reordered delivery of produced envelopes leaves the log a prefix of what was produced. */
  lemma {:induction false} LogIsPrefixOfProduced(s: SourceLog, scope: Scope, es: seq<Envelope>, n: nat, produced: seq<Envelope>)
    requires Chained(s) && s.log <= produced && n <= |es| && forall i :: 0 <= i < |es| ==> OnChain(es[i], produced)
    ensures Chained(ReceiveFirst(s, scope, es, n).1) && ReceiveFirst(s, scope, es, n).1.log <= produced
  {
    if n > 0 {
      LogIsPrefixOfProduced(s, scope, es, n - 1, produced);
      var before := ReceiveFirst(s, scope, es, n - 1).1;
      ReceiveKeepsPrefix(before, scope, es[n - 1], produced);
      ReceiveKeepsChain(before, scope, es[n - 1]);
    }
  }

  /** What a producer may send: one scope, allowed classes, one chain. */
  predicate InScopeAt(produced: seq<Envelope>, i: int, scope: Scope) {
    0 <= i < |produced| ==>
      && produced[i].content.workspaceId == scope.workspaceId && produced[i].content.sourceId == scope.sourceId
      && produced[i].content.record.class_ in scope.allowed
  }

  ghost predicate Deliverable(produced: seq<Envelope>, scope: Scope) {
    && Linked(produced) && DistinctIds(produced)
    && forall i {:trigger InScopeAt(produced, i, scope)} :: InScopeAt(produced, i, scope)
  }

  ghost predicate Holds(s: SourceLog, produced: seq<Envelope>, held: nat) {
    held <= |produced| && Chained(s) && s.log == produced[..held]
  }

  function AckFor(produced: seq<Envelope>, k: nat, held: nat): Ack
    requires k < |produced|
  {
    Ack(k + 1, produced[k].digest, if k < held then Duplicate else Accepted)
  }

  /** The next envelope of the chain is a duplicate when the log has it, and accepted when the log ends before it. */
  lemma ReceiveFromChain(s: SourceLog, scope: Scope, produced: seq<Envelope>, held: nat, k: nat) returns (next: SourceLog)
    requires Holds(s, produced, held) && Deliverable(produced, scope) && k <= held && k < |produced|
    ensures Receive(s, scope, produced[k]) == (Ok(AckFor(produced, k, held)), next)
    ensures Holds(next, produced, if k < held then held else k + 1)
  {
    next := Receive(s, scope, produced[k]).1;
    ReceiveKeepsChain(s, scope, produced[k]);
    assert InScopeAt(produced, k, scope) && LinkedAt(produced, k);
    var i := PositionOf(s.log, produced[k].content.id, held);
    assert IdsDiffer(produced, i, k) && IdsDiffer(produced, k, i);
    if k == held {
      assert produced[..k + 1] == produced[..k] + [produced[k]];
    }
  }

  /** The acknowledgements that `n` envelopes of the chain from `lo` on earn when the log ends at `held`. */
  function Acks(produced: seq<Envelope>, lo: nat, n: nat, held: nat): seq<Ack>
    requires lo + n <= |produced|
  {
    if n == 0 then [] else Acks(produced, lo, n - 1, held) + [AckFor(produced, lo + n - 1, held)]
  }

  /** The first `n` envelopes of `es` are the chain from `lo` on. */
  predicate Stretch(es: seq<Envelope>, n: nat, produced: seq<Envelope>, lo: nat) {
    n <= |es| && lo + n <= |produced| && forall i :: 0 <= i < n ==> es[i] == produced[lo + i]
  }

  function Max(a: nat, b: nat): nat {
    if a <= b then b else a
  }

  lemma ReceiveNext(s: SourceLog, scope: Scope, es: seq<Envelope>, n: nat, acks: seq<Ack>, before: SourceLog, ack: Ack, next: SourceLog)
    requires n < |es| && ReceiveFirst(s, scope, es, n) == (Ok(acks), before) && Receive(before, scope, es[n]) == (Ok(ack), next)
    ensures ReceiveFirst(s, scope, es, n + 1) == (Ok(acks + [ack]), next)
  {
  }

  /** One more envelope of the stretch: its acknowledgement is the expected one, and the log stays caught up. */
  lemma CatchUpOne(before: SourceLog, scope: Scope, produced: seq<Envelope>, held: nat, k: nat) returns (next: SourceLog)
    requires Holds(before, produced, Max(held, k)) && Deliverable(produced, scope) && k < |produced|
    ensures Receive(before, scope, produced[k]) == (Ok(AckFor(produced, k, held)), next)
    ensures Holds(next, produced, Max(held, k + 1))
  {
    next := ReceiveFromChain(before, scope, produced, Max(held, k), k);
  }

  /** One more envelope of a batch that is a stretch of the chain. */
  lemma CatchUpMore(s: SourceLog, before: SourceLog, scope: Scope, produced: seq<Envelope>, held: nat, lo: nat, es: seq<Envelope>, n: nat)
    returns (next: SourceLog)
    requires n < |es| && lo + n < |produced| && es[n] == produced[lo + n] && Deliverable(produced, scope)
    requires ReceiveFirst(s, scope, es, n) == (Ok(Acks(produced, lo, n, held)), before) && Holds(before, produced, Max(held, lo + n))
    ensures ReceiveFirst(s, scope, es, n + 1) == (Ok(Acks(produced, lo, n + 1, held)), next)
    ensures Holds(next, produced, Max(held, lo + n + 1))
  {
    next := CatchUpOne(before, scope, produced, held, lo + n);
    ReceiveNext(s, scope, es, n, Acks(produced, lo, n, held), before, AckFor(produced, lo + n, held), next);
  }

  /** Delivering a stretch of the chain that starts no later than the log ends makes the log catch up with it. */
  lemma {:induction false} CatchUp(s: SourceLog, scope: Scope, produced: seq<Envelope>, held: nat, lo: nat, es: seq<Envelope>, n: nat)
    returns (next: SourceLog)
    requires Holds(s, produced, held) && Deliverable(produced, scope) && lo <= held && Stretch(es, n, produced, lo)
    ensures ReceiveFirst(s, scope, es, n) == (Ok(Acks(produced, lo, n, held)), next)
    ensures Holds(next, produced, Max(held, lo + n))
  {
    if n == 0 {
      next := s;
    } else {
      var k := n - 1;
      assert es[k] == produced[lo + k] && Stretch(es, k, produced, lo);
      var before := CatchUp(s, scope, produced, held, lo, es, k);
      next := CatchUpMore(s, before, scope, produced, held, lo, es, k);
      assert k + 1 == n && lo + k + 1 == lo + n;
    }
  }

  /** `k` is the first place where the record's highest revision stands. */
  predicate Best(log: seq<Envelope>, n: nat, key: RecordKey, k: int)
    requires n <= |log|
  {
    && 0 <= k < n && log[k].content.record == key
    && forall i :: 0 <= i < n && log[i].content.record == key ==>
         && log[i].content.revision <= log[k].content.revision
         && (log[i].content.revision == log[k].content.revision ==> k <= i)
  }

  /** The view holds, for each record, the highest revision, and the first envelope that carried it. */
  lemma {:induction false} ViewIsHighest(log: seq<Envelope>, n: nat, key: RecordKey) returns (k: int)
    requires n <= |log|
    ensures key in ViewOf(log, n) ==> Best(log, n, key, k) && ViewOf(log, n)[key] == log[k]
    ensures key !in ViewOf(log, n) ==> forall i :: 0 <= i < n ==> log[i].content.record != key
  {
    k := -1;
    if n > 0 {
      k := ViewIsHighest(log, n - 1, key);
      if log[n - 1].content.record == key && (k < 0 || key !in ViewOf(log, n - 1) || log[n - 1].content.revision > log[k].content.revision) {
        k := n - 1;
      }
    }
  }

  // ---------------------------------------------------------------- the mutable mirror

  /** The state the mirror keeps for one registered workspace and source. */
  class SourceMirror {
    const scope: Scope
    var lastCursor: int
    var lastDigest: Option<Digest>
    var log: seq<Envelope>
    var records: map<RecordKey, Envelope>

    ghost function Value(): SourceLog
      reads this
    {
      SourceLog(lastCursor, lastDigest, log)
    }

    /** The log is a chain, and the record view kept beside it is the fold of that log. */
    ghost predicate Valid()
      reads this
    {
      Chained(Value()) && records == View(log)
    }

    constructor (scope: Scope)
      ensures this.scope == scope && Value() == EMPTY_LOG && Valid()
    {
      this.scope := scope;
      lastCursor, lastDigest, log, records := 0, None, [], map[];
    }

    /** Applies one accepted envelope to every part of the state. */
    method Store(e: Envelope)
      requires Valid() && Receive(Value(), scope, e).0 == Ok(Ack(e.content.cursor, e.digest, Accepted))
      modifies this
      ensures Valid() && Value() == Receive(old(Value()), scope, e).1
    {
      ReceiveKeepsChain(Value(), scope, e);
      ViewOfPrefix(log, log + [e], |log|);
      log := log + [e];
      lastCursor, lastDigest := e.content.cursor, Some(e.digest);
      if e.content.record !in records || e.content.revision > records[e.content.record].content.revision {
        records := records[e.content.record := e];
      }
    }

    method AppendEnvelopes(es: seq<Envelope>) returns (r: Result<seq<Ack>, Reason>)
      requires Valid()
      modifies this
      ensures Valid() && old(log) <= log
      ensures es == [] ==> r == Err(InvalidEnvelopes) && Value() == old(Value())
      ensures es != [] ==> (r, Value()) == ReceiveAll(old(Value()), scope, es)
    {
      if es == [] {
        return Err(InvalidEnvelopes);
      }
      ghost var before := Value();
      var acks: seq<Ack> := [];
      for i := 0 to |es|
        invariant Valid() && old(log) <= log
        invariant ReceiveFirst(before, scope, es, i) == (Ok(acks), Value())
      {
        var judged := Receive(SourceLog(lastCursor, lastDigest, log), scope, es[i]).0;
        if judged.Err? {
          RefusalEndsBatch(before, scope, es, i + 1);
          return Err(judged.error);
        }
        if judged.value.state == Accepted {
          Store(es[i]);
        }
        acks := acks + [judged.value];
      }
      r := Ok(acks);
    }

    /** The records a reader sees: those whose latest accepted envelope lies beyond the given cursor. */
    method ReadMirror(since: nat) returns (visible: map<RecordKey, Envelope>)
      requires Valid()
      ensures forall k :: k in visible <==> k in View(log) && View(log)[k].content.cursor > since
      ensures forall k :: k in visible ==> visible[k] == View(log)[k]
    {
      visible := map k | k in records && records[k].content.cursor > since :: records[k];
    }
  }
}
