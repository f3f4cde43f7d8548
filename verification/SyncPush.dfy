/** One undisturbed push: compile, send what is pending, and record the acknowledgements. */
module SyncPush {
  import opened Common
  import opened SyncMirror
  import opened SyncSource

  /** The sending half of a push; a refused batch leaves the acknowledged cursor where it was. */
  function Exchange(s: Source, m: SourceLog, scope: Scope): (Source, SourceLog) {
    var pending := Pending(s);
    if pending == [] then (s, m)
    else
      var (acks, next) := ReceiveAll(m, scope, pending);
      if acks.Err? then (s, next) else (AcknowledgeFirst(s, pending, acks.value, |acks.value|).1, next)
  }

  function Push(s: Source, m: SourceLog, scope: Scope, hash: Content -> Digest, rs: seq<Record>, at: int): (Source, SourceLog) {
    Exchange(Compile(s, scope, hash, rs, at), m, scope)
  }

  predicate AllEqual(s: Source, m: SourceLog) {
    s.acked == |m.log| == s.produced
  }

  predicate AllowedRecords(rs: seq<Record>, scope: Scope) {
    forall i :: 0 <= i < |rs| ==> rs[i].key.class_ in scope.allowed
  }

  /** What the mirror holds lies on the producer's chain, at or beyond what was acknowledged. */
  ghost predicate InStep(s: Source, m: SourceLog) {
    Chained(m) && m.log <= s.stored && s.acked <= |m.log|
  }

  /** In-order acknowledgements of a stretch of the chain move the cursor along it, as far as it was produced. */
  lemma {:induction false} AckStretch(s: Source, chain: seq<Envelope>, pending: seq<Envelope>, held: nat, n: nat)
    requires Linked(chain) && Stretch(pending, |pending|, chain, s.acked) && n <= |pending| && s.acked + n <= s.produced
    ensures |Acks(chain, s.acked, |pending|, held)| == |pending|
    ensures AcknowledgeFirst(s, pending, Acks(chain, s.acked, |pending|, held), n) == (None, s.(acked := s.acked + n))
  {
    AcksAt(chain, s.acked, |pending|, held);
    if n > 0 {
      AckStretch(s, chain, pending, held, n - 1);
      assert LinkedAt(chain, s.acked + n - 1);
      assert Answers(pending[n - 1], AckFor(chain, s.acked + n - 1, held));
    }
  }

  lemma {:induction false} AcksAt(chain: seq<Envelope>, lo: nat, n: nat, held: nat)
    requires lo + n <= |chain|
    ensures |Acks(chain, lo, n, held)| == n
    ensures forall i :: 0 <= i < n ==> Acks(chain, lo, n, held)[i] == AckFor(chain, lo + i, held)
  {
    if n > 0 {
      AcksAt(chain, lo, n - 1, held);
    }
  }

  lemma CleanPending(s: Source, scope: Scope, hash: Content -> Digest)
    requires Clean(s, scope, hash) && s.acked <= |s.stored|
    ensures Pending(s) == s.stored[s.acked..]
  {
    forall i | 0 <= i < |s.stored| ensures s.stored[i].content.cursor == i + 1 {
      assert LinkedAt(s.stored, i);
    }
    PendingIsSuffix(s, |s.stored|);
  }

  /** What an exchange does when the mirror takes the whole batch. */
  lemma ExchangeOf(s: Source, m: SourceLog, scope: Scope, acks: seq<Ack>, next: SourceLog, error: Option<AckError>, after: Source)
    requires Pending(s) != [] && ReceiveAll(m, scope, Pending(s)) == (Ok(acks), next)
    requires AcknowledgeFirst(s, Pending(s), acks, |acks|) == (error, after)
    ensures Exchange(s, m, scope) == (after, next)
  {
  }

  /** The mirror takes all that is pending from a repository that is a chain. */
  lemma ChainDelivery(s: Source, chain: Source, m: SourceLog, scope: Scope, hash: Content -> Digest) returns (next: SourceLog)
    requires Clean(chain, scope, hash) && s.stored == chain.stored
    requires Chained(m) && m.log <= s.stored && s.acked <= |m.log|
    requires Pending(s) == s.stored[s.acked..]
    ensures ReceiveAll(m, scope, Pending(s)) == (Ok(Acks(s.stored, s.acked, |Pending(s)|, |m.log|)), next)
    ensures Holds(next, s.stored, |s.stored|)
  {
    CleanIsDeliverable(chain, scope, hash);
    next := CatchUp(m, scope, s.stored, |m.log|, s.acked, Pending(s), |Pending(s)|);
  }

  /** The mirror takes all that is pending, and the acknowledgements reach the producer's cursor. */
  lemma CleanDelivery(s: Source, m: SourceLog, scope: Scope, hash: Content -> Digest) returns (next: SourceLog)
    requires Clean(s, scope, hash) && InStep(s, m) && Pending(s) != []
    ensures Exchange(s, m, scope) == (s.(acked := s.produced), next) && Holds(next, s.stored, |s.stored|)
  {
    var pending := Pending(s);
    CleanPending(s, scope, hash);
    next := ChainDelivery(s, s, m, scope, hash);
    AckStretch(s, s.stored, pending, |m.log|, |pending|);
    ExchangeOf(s, m, scope, Acks(s.stored, s.acked, |pending|, |m.log|), next, None, s.(acked := s.produced));
  }

  /** From a clean state an exchange brings acknowledged, mirrored and produced cursors together. */
  lemma CleanExchange(s: Source, m: SourceLog, scope: Scope, hash: Content -> Digest)
    requires Clean(s, scope, hash) && InStep(s, m)
    ensures var (s', m') := Exchange(s, m, scope);
      AllEqual(s', m') && s' == s.(acked := s.produced) && m'.log == s.stored && Chained(m') && Pending(s') == []
  {
    CleanPending(s, scope, hash);
    CleanPending(s.(acked := s.produced), scope, hash);
    if Pending(s) != [] {
      var next := CleanDelivery(s, m, scope, hash);
    }
  }

  /** An undisturbed push from a clean state: the three cursors meet, the mirror shows the last envelope of
      every record, and when no record occurs with two payloads the next push sends nothing. */
  lemma CleanPush(s: Source, m: SourceLog, scope: Scope, hash: Content -> Digest, rs: seq<Record>, at: int, later: int)
    requires Clean(s, scope, hash) && InStep(s, m) && AllowedRecords(rs, scope)
    ensures var (s', m') := Push(s, m, scope, hash, rs, at);
      && AllEqual(s', m') && Clean(s', scope, hash) && InStep(s', m')
      && m'.log == s'.stored && View(m'.log) == LatestOf(s'.stored, |s'.stored|)
      && (Consistent(rs) ==> Push(s', m', scope, hash, rs, later) == (s', m'))
  {
    CompileKeepsClean(s, scope, hash, rs, at, |rs|);
    var compiled := Compile(s, scope, hash, rs, at);
    CleanExchange(compiled, m, scope, hash);
    var (s', m') := Push(s, m, scope, hash, rs, at);
    ViewShowsLatest(s', scope, hash);
    RecompileIsQuietIff(s, scope, hash, rs, at, later);
    if Consistent(rs) {
      SameCompile(compiled, s', scope, hash, rs, later, |rs|);
    }
  }

  /** Compiling does not look at the acknowledged cursor. */
  lemma {:induction false} SameCompile(s: Source, t: Source, scope: Scope, hash: Content -> Digest, rs: seq<Record>, at: int, n: nat)
    requires t == s.(acked := t.acked) && n <= |rs|
    ensures var (a, latest) := CompileFirst(s, scope, hash, rs, at, n);
      CompileFirst(t, scope, hash, rs, at, n) == (a.(acked := t.acked), latest)
  {
    if n > 0 {
      SameCompile(s, t, scope, hash, rs, at, n - 1);
    }
  }

  // ---------------------------------------------------------------- after a crash between the two saves

  /** A crash came after an envelope was saved and before its cursor was: `orphan` is stored beyond the produced cursor. */
  ghost predicate Orphaned(s: Source, clean: Source, orphan: Envelope, scope: Scope, hash: Content -> Digest) {
    && Clean(clean, scope, hash) && s == clean.(stored := clean.stored + [orphan])
    && orphan.content.cursor == clean.produced + 1 && Clean(Advance(s, orphan), scope, hash)
  }

  /** The first of `n` records that counts as changed when compiling starts. */
  function FirstChanged(s: Source, rs: seq<Record>, n: nat): (r: Option<nat>)
    requires n <= |rs|
    ensures r.Some? ==> r.value < n
  {
    if n == 0 then None
    else
      var before := FirstChanged(s, rs, n - 1);
      if before.Some? then before
      else if Changed(LatestOf(s.stored, |s.stored|), rs[n - 1]) then Some(n - 1)
      else None
  }

  /** The envelope at position `i` has cursor `i`, named after it. */
  predicate ShiftedAt(t: Source, i: int) {
    0 <= i < |t.stored| ==> t.stored[i].content.cursor == i
  }

  predicate NamedAt(t: Source, i: int) {
    0 <= i < |t.stored| ==>
      && t.stored[i].content.id.Derived? && t.stored[i].content.id.cursor == t.stored[i].content.cursor <= t.produced
  }

  /** A second envelope was produced at the orphan's cursor, and all later ones stand one place too far. */
  ghost predicate Stuck(t: Source, s: Source) {
    && |t.stored| == t.produced + 1 && t.produced >= |s.stored| >= 1 && t.acked == s.acked && s.stored <= t.stored
    && t.stored[|s.stored|].content.id != s.stored[|s.stored| - 1].content.id
    && (forall i {:trigger ShiftedAt(t, i)} :: i >= |s.stored| ==> ShiftedAt(t, i))
    && (forall i {:trigger NamedAt(t, i)} :: NamedAt(t, i))
  }

  /** An envelope whose id is new is appended. */
  lemma SavedAsNew(t: Source, e: Envelope)
    requires forall i :: 0 <= i < |t.stored| ==> t.stored[i].content.id != e.content.id
    ensures Save(t, e) == t.(stored := t.stored + [e])
  {
    assert PositionOf(t.stored, e.content.id, |t.stored|) < 0;
  }

  lemma OrphanIsNamed(s: Source, clean: Source, orphan: Envelope, scope: Scope, hash: Content -> Digest, i: int)
    requires Orphaned(s, clean, orphan, scope, hash) && 0 <= i < |s.stored|
    ensures s.stored[i].content.cursor == i + 1 && Own(s.stored[i], scope, hash)
  {
    assert LinkedAt(s.stored, i) && s.stored[i] in s.stored;
  }

  lemma ReplacedOrphan(s: Source, clean: Source, orphan: Envelope, scope: Scope, hash: Content -> Digest, r: Record, at: int)
    requires Orphaned(s, clean, orphan, scope, hash) && r.key == orphan.content.record
    requires Changed(LatestOf(s.stored, |s.stored|), r)
    ensures var (t, latest) := CompileOne(s, LatestOf(s.stored, |s.stored|), scope, hash, r, at);
      Clean(t, scope, hash) && t.acked == s.acked && clean.stored <= t.stored && latest == LatestOf(t.stored, |t.stored|)
  {
    var p := clean.produced;
    var l := LatestOf(s.stored, |s.stored|);
    var e := NextEnvelope(s, l, scope, hash, r, at);
    var (t, latest) := CompileOne(s, l, scope, hash, r, at);
    OrphanIsNamed(s, clean, orphan, scope, hash, p);
    LatestOfPrefix(clean.stored, s.stored, p);
    LatestOfPrefix(clean.stored, clean.stored + [e], p);
    assert PositionOf(s.stored, e.content.id, |s.stored|) == p;
    assert t.stored == clean.stored + [e];
    LinkedExtends(clean.stored, e);
    forall i, j {:trigger RevisionsGrowAt(t.stored, i, j)} ensures RevisionsGrowAt(t.stored, i, j) {
      assert RevisionsGrowAt(s.stored, i, j);
    }
  }

  lemma SecondAtCursor(s: Source, clean: Source, orphan: Envelope, scope: Scope, hash: Content -> Digest, r: Record, at: int)
    requires Orphaned(s, clean, orphan, scope, hash) && r.key != orphan.content.record
    requires Changed(LatestOf(s.stored, |s.stored|), r)
    ensures Stuck(CompileOne(s, LatestOf(s.stored, |s.stored|), scope, hash, r, at).0, s)
  {
    var e := NextEnvelope(s, LatestOf(s.stored, |s.stored|), scope, hash, r, at);
    forall i | 0 <= i < |s.stored| ensures s.stored[i].content.id != e.content.id {
      OrphanIsNamed(s, clean, orphan, scope, hash, i);
    }
    SavedAsNew(s, e);
    var t := CompileOne(s, LatestOf(s.stored, |s.stored|), scope, hash, r, at).0;
    forall i {:trigger NamedAt(t, i)} ensures NamedAt(t, i) {
      if 0 <= i < |s.stored| {
        OrphanIsNamed(s, clean, orphan, scope, hash, i);
      }
    }
  }

  lemma StuckStays(t: Source, s: Source, latest: Latest, scope: Scope, hash: Content -> Digest, r: Record, at: int)
    requires Stuck(t, s)
    ensures Stuck(CompileOne(t, latest, scope, hash, r, at).0, s)
  {
    if Changed(latest, r) {
      var e := NextEnvelope(t, latest, scope, hash, r, at);
      forall i | 0 <= i < |t.stored| ensures t.stored[i].content.id != e.content.id {
        assert NamedAt(t, i);
      }
      SavedAsNew(t, e);
      var next := CompileOne(t, latest, scope, hash, r, at).0;
      forall i {:trigger NamedAt(next, i)} ensures NamedAt(next, i) {
        assert NamedAt(t, i);
      }
      forall i {:trigger ShiftedAt(next, i)} | i >= |s.stored| ensures ShiftedAt(next, i) {
        assert ShiftedAt(t, i);
      }
    }
  }

  /** Compiling after such a crash: the orphan is replaced, doubled or left, by the first changed record. */
  lemma {:induction false} CompileAfterCrash(
    s: Source, clean: Source, orphan: Envelope, scope: Scope, hash: Content -> Digest, rs: seq<Record>, at: int, n: nat)
    requires Orphaned(s, clean, orphan, scope, hash) && AllowedRecords(rs, scope) && n <= |rs|
    ensures var (t, latest) := CompileFirst(s, scope, hash, rs, at, n);
      var first := FirstChanged(s, rs, n);
      if first.None? then t == s && latest == LatestOf(s.stored, |s.stored|)
      else if rs[first.value].key == orphan.content.record then
        Clean(t, scope, hash) && t.acked == s.acked && clean.stored <= t.stored && latest == LatestOf(t.stored, |t.stored|)
      else Stuck(t, s)
  {
    if n > 0 {
      CompileAfterCrash(s, clean, orphan, scope, hash, rs, at, n - 1);
      var (t, latest) := CompileFirst(s, scope, hash, rs, at, n - 1);
      var first := FirstChanged(s, rs, n - 1);
      if first.Some? && rs[first.value].key == orphan.content.record {
        CompileOneKeepsClean(t, latest, scope, hash, rs[n - 1], at);
      } else if first.Some? {
        StuckStays(t, s, latest, scope, hash, rs[n - 1], at);
      } else if Changed(latest, rs[n - 1]) && rs[n - 1].key == orphan.content.record {
        ReplacedOrphan(s, clean, orphan, scope, hash, rs[n - 1], at);
      } else if Changed(latest, rs[n - 1]) {
        SecondAtCursor(s, clean, orphan, scope, hash, rs[n - 1], at);
      }
    }
  }

  lemma {:induction false} AcksKeepProduced(s: Source, pending: seq<Envelope>, acks: seq<Ack>, n: nat)
    requires n <= |acks|
    ensures AcknowledgeFirst(s, pending, acks, n).1.produced == s.produced
  {
    if n > 0 {
      AcksKeepProduced(s, pending, acks, n - 1);
    }
  }

  lemma OrphanPending(s: Source, clean: Source, orphan: Envelope, scope: Scope, hash: Content -> Digest)
    requires Orphaned(s, clean, orphan, scope, hash)
    ensures Pending(s) == s.stored[s.acked..] && |s.stored| == s.produced + 1 && s.acked <= s.produced
  {
    forall i | 0 <= i < |s.stored| ensures s.stored[i].content.cursor == i + 1 {
      OrphanIsNamed(s, clean, orphan, scope, hash, i);
    }
    PendingIsSuffix(s, |s.stored|);
  }

  /** Sent as it is, the orphan reaches the mirror, which is then ahead of the produced cursor. */
  lemma OrphanOvertakes(s: Source, clean: Source, orphan: Envelope, m: SourceLog, scope: Scope, hash: Content -> Digest)
    requires Orphaned(s, clean, orphan, scope, hash) && InStep(clean, m)
    ensures var (s', m') := Exchange(s, m, scope); s'.produced == s.produced && |m'.log| == s.produced + 1
  {
    OrphanPending(s, clean, orphan, scope, hash);
    var pending := Pending(s);
    var next := ChainDelivery(s, Advance(s, orphan), m, scope, hash);
    var acks := Acks(s.stored, s.acked, |pending|, |m.log|);
    AcksKeepProduced(s, pending, acks, |acks|);
    var r := AcknowledgeFirst(s, pending, acks, |acks|);
    ExchangeOf(s, m, scope, acks, next, r.0, r.1);
  }

  lemma StuckPending(t: Source, s: Source, clean: Source, orphan: Envelope, scope: Scope, hash: Content -> Digest)
    requires Orphaned(s, clean, orphan, scope, hash) && Stuck(t, s)
    ensures Pending(t) == t.stored[t.acked..]
  {
    forall i | 0 <= i < |t.stored| ensures t.stored[i].content.cursor <= t.acked <==> i < t.acked {
      if i >= |s.stored| {
        assert ShiftedAt(t, i);
      } else {
        OrphanIsNamed(s, clean, orphan, scope, hash, i);
        assert s.stored[i] == t.stored[i];
      }
    }
    PendingIsSuffix(t, |t.stored|);
  }

  lemma SecondIsRefused(
    t: Source, s: Source, clean: Source, orphan: Envelope, next: SourceLog, scope: Scope, hash: Content -> Digest)
    requires Orphaned(s, clean, orphan, scope, hash) && Stuck(t, s) && Holds(next, s.stored, |s.stored|)
    ensures |t.stored| > |s.stored| && Receive(next, scope, t.stored[|s.stored|]).0.Err?
    ensures Receive(next, scope, t.stored[|s.stored|]).1 == next
  {
    var second := t.stored[|s.stored|];
    assert ShiftedAt(t, |s.stored|) && NamedAt(t, |s.stored|);
    forall i | 0 <= i < |next.log| ensures next.log[i].content.id != second.content.id {
      OrphanIsNamed(s, clean, orphan, scope, hash, i);
    }
  }

  lemma RefusedBatch(m: SourceLog, scope: Scope, es: seq<Envelope>, n: nat, before: SourceLog)
    requires n < |es| && ReceiveFirst(m, scope, es, n).0.Ok? && ReceiveFirst(m, scope, es, n).1 == before
    requires Receive(before, scope, es[n]).0.Err?
    ensures ReceiveAll(m, scope, es).0.Err? && ReceiveAll(m, scope, es).1 == Receive(before, scope, es[n]).1
  {
    RefusalEndsBatch(m, scope, es, n + 1);
  }

  /** With two envelopes at one cursor the mirror takes the first and refuses the batch at the second. */
  lemma StuckIsRefused(
    t: Source, s: Source, clean: Source, orphan: Envelope, m: SourceLog, scope: Scope, hash: Content -> Digest)
    requires Orphaned(s, clean, orphan, scope, hash) && Stuck(t, s) && InStep(clean, m)
    ensures var (t', m') := Exchange(t, m, scope); t' == t && t.acked < |m'.log| == |s.stored|
  {
    StuckPending(t, s, clean, orphan, scope, hash);
    CleanIsDeliverable(Advance(s, orphan), scope, hash);
    var pending := Pending(t);
    var n := |s.stored| - s.acked;
    assert pending[n] == t.stored[|s.stored|];
    var next := CatchUp(m, scope, s.stored, |m.log|, s.acked, pending, n);
    SecondIsRefused(t, s, clean, orphan, next, scope, hash);
    RefusedBatch(m, scope, pending, n, next);
  }

  /** The first push after such a crash brings the three cursors together exactly when the first changed
      record is the one the orphan was made for; otherwise the mirror stays ahead of the acknowledged cursor. */
  lemma PushAfterCrashIff(
    s: Source, clean: Source, orphan: Envelope, m: SourceLog, scope: Scope, hash: Content -> Digest, rs: seq<Record>, at: int)
    requires Orphaned(s, clean, orphan, scope, hash) && InStep(clean, m) && AllowedRecords(rs, scope)
    ensures var (s', m') := Push(s, m, scope, hash, rs, at);
      var first := FirstChanged(s, rs, |rs|);
      AllEqual(s', m') <==> first.Some? && rs[first.value].key == orphan.content.record
  {
    CompileAfterCrash(s, clean, orphan, scope, hash, rs, at, |rs|);
    var t := Compile(s, scope, hash, rs, at);
    var first := FirstChanged(s, rs, |rs|);
    if first.None? {
      OrphanOvertakes(s, clean, orphan, m, scope, hash);
    } else if rs[first.value].key == orphan.content.record {
      CleanExchange(t, m, scope, hash);
    } else {
      StuckIsRefused(t, s, clean, orphan, m, scope, hash);
    }
  }

  /** The first push after such a crash leaves the mirror at or behind the produced cursor exactly when compiling
      finds a changed record. */
  lemma PushKeepsOrderIff(
    s: Source, clean: Source, orphan: Envelope, m: SourceLog, scope: Scope, hash: Content -> Digest, rs: seq<Record>, at: int)
    requires Orphaned(s, clean, orphan, scope, hash) && InStep(clean, m) && AllowedRecords(rs, scope)
    ensures var (s', m') := Push(s, m, scope, hash, rs, at);
      |m'.log| <= s'.produced <==> FirstChanged(s, rs, |rs|).Some?
  {
    CompileAfterCrash(s, clean, orphan, scope, hash, rs, at, |rs|);
    var t := Compile(s, scope, hash, rs, at);
    var first := FirstChanged(s, rs, |rs|);
    if first.None? {
      OrphanOvertakes(s, clean, orphan, m, scope, hash);
    } else if rs[first.value].key == orphan.content.record {
      CleanExchange(t, m, scope, hash);
    } else {
      StuckIsRefused(t, s, clean, orphan, m, scope, hash);
    }
  }

  // ---------------------------------------------------------------- after the mirror lost its memory

  /** The mirror lives in memory. When it restarts empty and the source is registered again, the next push brings
      the three cursors together exactly when nothing had been acknowledged. */
  lemma PushAfterMirrorLossIff(s: Source, scope: Scope, hash: Content -> Digest, rs: seq<Record>, at: int)
    requires Clean(s, scope, hash) && AllowedRecords(rs, scope)
    ensures var (s', m') := Push(s, EMPTY_LOG, scope, hash, rs, at); AllEqual(s', m') <==> s.acked == 0
    ensures s.acked > 0 ==> Push(s, EMPTY_LOG, scope, hash, rs, at) == (Compile(s, scope, hash, rs, at), EMPTY_LOG)
  {
    CompileKeepsClean(s, scope, hash, rs, at, |rs|);
    var t := Compile(s, scope, hash, rs, at);
    if s.acked == 0 {
      CleanExchange(t, EMPTY_LOG, scope, hash);
    } else {
      CleanPending(t, scope, hash);
      if Pending(t) != [] {
        assert LinkedAt(t.stored, t.acked) && Pending(t)[0] == t.stored[t.acked];
        RefusedBatch(EMPTY_LOG, scope, Pending(t), 0, EMPTY_LOG);
      }
    }
  }
}
