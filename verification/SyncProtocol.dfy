/**
 One producing service and one mirror, with everything that can go wrong in between: loss, repetition
 and reordering on the wire, restarts, and a crash between any two durable saves.
 */
module SyncProtocol {
  import opened Common
  import opened SyncMirror
  import opened SyncSource
  import SyncPush

  /** `latest`, `half` and `pending` are memory of the running service: the record index of a compilation,
      an envelope whose cursor is not saved yet, and the batch of the current push. */
  datatype World = World(
    src: Source, latest: Option<Latest>, half: Option<Envelope>, pending: seq<Envelope>,
    sent: set<Envelope>, acks: set<Ack>, mirror: SourceLog)

  datatype Action =
    | StartCompile
    | SaveEnvelope(record: Record, at: int)
    | SaveCursor
    | Send
    | Deliver(batch: seq<Envelope>)
    | SettleAck(ack: Ack)
    | Crash

  const START := World(NEW_SOURCE, None, None, [], {}, {}, EMPTY_LOG)

  /** One action; a delivery may carry any envelopes ever sent, in any order, any number of times. */
  function Next(w: World, scope: Scope, hash: Content -> Digest, act: Action): World {
    match act
    case StartCompile =>
      if w.half.Some? then w else w.(latest := Some(LatestOf(w.src.stored, |w.src.stored|)))
    case SaveEnvelope(r, at) =>
      if w.half.Some? || w.latest.None? || !Changed(w.latest.value, r) || r.key.class_ !in scope.allowed then w
      else
        var e := NextEnvelope(w.src, w.latest.value, scope, hash, r, at);
        w.(src := Save(w.src, e), half := Some(e))
    case SaveCursor =>
      if w.half.None? || w.latest.None? || w.half.value.content.cursor < 0 then w
      else
        var e := w.half.value;
        w.(src := Advance(w.src, e), half := None, latest := Some(w.latest.value[e.content.record := e]))
    case Send =>
      if w.half.Some? then w
      else w.(pending := Pending(w.src), sent := w.sent + set e | e in Pending(w.src))
    case Deliver(batch) =>
      if batch == [] || exists e :: e in batch && e !in w.sent then w
      else
        var (acks, next) := ReceiveAll(w.mirror, scope, batch);
        w.(mirror := next, acks := if acks.Ok? then w.acks + set a | a in acks.value else w.acks)
    case SettleAck(ack) =>
      if ack !in w.acks || w.half.Some? then w
      else
        var r := Acknowledge(w.src, w.pending, ack);
        if r.Err? then w else w.(src := r.value)
    case Crash => w.(latest := None, half := None, pending := [])
  }

  function Run(w: World, scope: Scope, hash: Content -> Digest, acts: seq<Action>, n: nat): World
    requires n <= |acts|
  {
    if n == 0 then w else Next(Run(w, scope, hash, acts, n - 1), scope, hash, acts[n - 1])
  }

  // ---------------------------------------------------------------- every run, with crashes anywhere

  predicate Placed(s: Source, e: Envelope, hash: Content -> Digest) {
    1 <= e.content.cursor <= s.produced + 1 && e.digest == hash(e.content)
  }

  ghost predicate Bounded(w: World, hash: Content -> Digest) {
    && w.src.acked <= w.src.produced && w.src.acked <= |w.mirror.log|
    && Chained(w.mirror)
    && (forall e :: e in w.src.stored || e in w.sent ==> Placed(w.src, e, hash))
    && (w.half.Some? ==> w.half.value.content.cursor == w.src.produced + 1)
    && (forall e :: e in w.mirror.log ==> e in w.sent)
    && (forall a :: a in w.acks ==> Truthful(w.mirror.log, a))
  }

  lemma {:induction false} PendingIsStored(s: Source, n: nat)
    requires n <= |s.stored|
    ensures forall e :: e in PendingFirst(s, n) ==> e in s.stored
  {
    if n > 0 {
      PendingIsStored(s, n - 1);
    }
  }

  lemma SavedOrStored(s: Source, e: Envelope)
    ensures forall x :: x in Save(s, e).stored ==> x in s.stored || x == e
  {
  }

  lemma NextKeepsBounded(w: World, scope: Scope, hash: Content -> Digest, act: Action)
    requires Bounded(w, hash)
    ensures Bounded(Next(w, scope, hash, act), hash)
  {
    match act
    case SaveEnvelope(r, at) =>
      if w.latest.Some? {
        SavedOrStored(w.src, NextEnvelope(w.src, w.latest.value, scope, hash, r, at));
      }
    case Send => PendingIsStored(w.src, |w.src.stored|);
    case Deliver(batch) => BatchKeepsChain(w.mirror, scope, batch, |batch|);
    case _ =>
  }

  lemma {:induction false} RunKeepsBounded(scope: Scope, hash: Content -> Digest, acts: seq<Action>, n: nat)
    requires n <= |acts|
    ensures Bounded(Run(START, scope, hash, acts, n), hash)
  {
    if n > 0 {
      RunKeepsBounded(scope, hash, acts, n - 1);
      NextKeepsBounded(Run(START, scope, hash, acts, n - 1), scope, hash, acts[n - 1]);
    }
  }

  /** In every run the acknowledged cursor is behind both others, the mirror is at most one ahead of the
      producer, and the mirror holds a linked chain of envelopes sealed by the producer. */
  lemma CursorsAreOrdered(scope: Scope, hash: Content -> Digest, acts: seq<Action>)
    ensures var w := Run(START, scope, hash, acts, |acts|);
      && w.src.acked <= w.src.produced && w.src.acked <= |w.mirror.log| <= w.src.produced + 1
      && Linked(w.mirror.log) && Sealed(w.mirror.log, hash)
  {
    RunKeepsBounded(scope, hash, acts, |acts|);
    var w := Run(START, scope, hash, acts, |acts|);
    if w.mirror.log != [] {
      var last := |w.mirror.log| - 1;
      assert LinkedAt(w.mirror.log, last) && w.mirror.log[last] in w.sent;
    }
  }

  // ---------------------------------------------------------------- runs that do not crash in the window

  /** No crash falls between saving an envelope and saving its cursor. */
  ghost predicate Orderly(scope: Scope, hash: Content -> Digest, acts: seq<Action>, n: nat)
    requires n <= |acts|
  {
    forall i :: 0 <= i < n && acts[i].Crash? ==> Run(START, scope, hash, acts, i).half.None?
  }

  /** The source as it will be once the cursor of a saved envelope is saved too. */
  function Settled(w: World): Source {
    if w.half.Some? && w.half.value.content.cursor >= 0 then Advance(w.src, w.half.value) else w.src
  }

  ghost predicate Ordered(w: World, scope: Scope, hash: Content -> Digest) {
    && Bounded(w, hash) && Clean(Settled(w), scope, hash)
    && (w.half.Some? ==>
          && w.latest.Some? && |w.src.stored| > 0 && w.src.stored[|w.src.stored| - 1] == w.half.value
          && w.half.value.content.previous == w.src.lastDigest)
    && (w.latest.Some? ==>
          w.latest.value == LatestOf(w.src.stored, if w.half.Some? then |w.src.stored| - 1 else |w.src.stored|))
    && (forall e {:trigger e in w.sent} :: e in w.sent ==> OnChain(e, w.src.stored) && e.content.cursor <= w.src.produced)
    && w.mirror.log <= w.src.stored
  }

  lemma SaveAppends(s: Source, latest: Latest, scope: Scope, hash: Content -> Digest, r: Record, at: int)
    requires Clean(s, scope, hash) && latest == LatestOf(s.stored, |s.stored|) && r.key.class_ in scope.allowed && Changed(latest, r)
    ensures var e := NextEnvelope(s, latest, scope, hash, r, at);
      Save(s, e) == s.(stored := s.stored + [e]) && Clean(Advance(Save(s, e), e), scope, hash)
      && LatestOf(s.stored + [e], |s.stored|) == latest
  {
    var e := NextEnvelope(s, latest, scope, hash, r, at);
    CompileOneKeepsClean(s, latest, scope, hash, r, at);
    LatestOfPrefix(s.stored, s.stored + [e], |s.stored|);
  }

  lemma SaveKeepsOrdered(w: World, scope: Scope, hash: Content -> Digest, r: Record, at: int)
    requires Ordered(w, scope, hash) && w.half.None? && w.latest.Some? && r.key.class_ in scope.allowed && Changed(w.latest.value, r)
    requires Bounded(Next(w, scope, hash, SaveEnvelope(r, at)), hash)
    ensures Ordered(Next(w, scope, hash, SaveEnvelope(r, at)), scope, hash)
  {
    SaveAppends(w.src, w.latest.value, scope, hash, r, at);
    var next := Next(w, scope, hash, SaveEnvelope(r, at));
    forall e {:trigger e in next.sent} | e in next.sent ensures OnChain(e, next.src.stored) && e.content.cursor <= next.src.produced {
      assert e in w.sent;
    }
    assert w.mirror.log <= w.src.stored <= next.src.stored;
  }

  lemma SaveCursorKeepsOrdered(w: World, scope: Scope, hash: Content -> Digest)
    requires Ordered(w, scope, hash)
    requires Bounded(Next(w, scope, hash, SaveCursor), hash)
    ensures Ordered(Next(w, scope, hash, SaveCursor), scope, hash)
  {
  }

  /** What a delivery may carry, and that it leaves the mirror with a prefix of the producer's chain. */
  lemma DeliveredPrefix(m: SourceLog, scope: Scope, batch: seq<Envelope>, sent: set<Envelope>, stored: seq<Envelope>)
    requires Chained(m) && m.log <= stored && Linked(stored)
    requires (forall e :: e in batch ==> e in sent) && forall e :: e in sent ==> OnChain(e, stored)
    ensures ReceiveAll(m, scope, batch).1.log <= stored
  {
    forall i | 0 <= i < |batch| ensures OnChain(batch[i], stored) {
      assert batch[i] in batch;
    }
    LogIsPrefixOfProduced(m, scope, batch, |batch|, stored);
  }

  /** Everything else that order speaks of is untouched by a delivery. */
  lemma DeliveryTouchesMirror(w: World, scope: Scope, hash: Content -> Digest, batch: seq<Envelope>)
    ensures var next := Next(w, scope, hash, Deliver(batch));
      && next == w.(mirror := next.mirror, acks := next.acks)
      && (next.mirror == w.mirror || (next.mirror == ReceiveAll(w.mirror, scope, batch).1 && forall e :: e in batch ==> e in w.sent))
  {
  }

  lemma DeliverKeepsOrdered(w: World, scope: Scope, hash: Content -> Digest, batch: seq<Envelope>)
    requires Ordered(w, scope, hash)
    requires Bounded(Next(w, scope, hash, Deliver(batch)), hash)
    ensures Ordered(Next(w, scope, hash, Deliver(batch)), scope, hash)
  {
    DeliveryTouchesMirror(w, scope, hash, batch);
    if forall e :: e in batch ==> e in w.sent {
      DeliveredPrefix(w.mirror, scope, batch, w.sent, w.src.stored);
    }
  }

  lemma SendKeepsOrdered(w: World, scope: Scope, hash: Content -> Digest)
    requires Ordered(w, scope, hash) && Bounded(Next(w, scope, hash, Send), hash) && w.half.None?
    ensures Ordered(Next(w, scope, hash, Send), scope, hash)
  {
    PendingIsStored(w.src, |w.src.stored|);
    forall e | e in w.src.stored ensures OnChain(e, w.src.stored) && e.content.cursor <= w.src.produced {
      var i :| 0 <= i < |w.src.stored| && w.src.stored[i] == e;
      assert LinkedAt(w.src.stored, i);
    }
  }

  lemma NextKeepsOrdered(w: World, scope: Scope, hash: Content -> Digest, act: Action)
    requires Ordered(w, scope, hash) && !(act.Crash? && w.half.Some?)
    ensures Ordered(Next(w, scope, hash, act), scope, hash)
  {
    NextKeepsBounded(w, scope, hash, act);
    match act
    case SaveEnvelope(r, at) =>
      if w.half.None? && w.latest.Some? && r.key.class_ in scope.allowed && Changed(w.latest.value, r) {
        SaveKeepsOrdered(w, scope, hash, r, at);
      }
    case SaveCursor => SaveCursorKeepsOrdered(w, scope, hash);
    case Send =>
      if w.half.None? {
        SendKeepsOrdered(w, scope, hash);
      }
    case Deliver(batch) => DeliverKeepsOrdered(w, scope, hash, batch);
    case _ =>
  }

  lemma {:induction false} OrderlyRunKeepsOrdered(scope: Scope, hash: Content -> Digest, acts: seq<Action>, n: nat)
    requires n <= |acts| && Orderly(scope, hash, acts, n)
    ensures Ordered(Run(START, scope, hash, acts, n), scope, hash)
  {
    if n > 0 {
      OrderlyRunKeepsOrdered(scope, hash, acts, n - 1);
      NextKeepsOrdered(Run(START, scope, hash, acts, n - 1), scope, hash, acts[n - 1]);
    }
  }

  /** Without a crash in that window: acknowledged, mirrored and produced cursors are in order, and the
      mirror's log is a prefix of the chain the producer stored. */
  lemma OrderlyCursors(scope: Scope, hash: Content -> Digest, acts: seq<Action>)
    requires Orderly(scope, hash, acts, |acts|)
    ensures var w := Run(START, scope, hash, acts, |acts|);
      && w.src.acked <= |w.mirror.log| <= w.src.produced <= |w.src.stored|
      && w.mirror.log <= w.src.stored[..w.src.produced]
      && (w.half.None? ==> Clean(w.src, scope, hash))
  {
    OrderlyRunKeepsOrdered(scope, hash, acts, |acts|);
    var w := Run(START, scope, hash, acts, |acts|);
    if w.mirror.log != [] {
      var last := |w.mirror.log| - 1;
      assert LinkedAt(w.mirror.log, last) && w.mirror.log[last] in w.sent;
    }
  }

  /** A crash in the window leaves exactly the state in which the saved envelope is an orphan. */
  lemma CrashLeavesOrphan(w: World, scope: Scope, hash: Content -> Digest) returns (clean: Source)
    requires Ordered(w, scope, hash) && w.half.Some?
    ensures SyncPush.Orphaned(Next(w, scope, hash, Crash).src, clean, w.half.value, scope, hash)
    ensures SyncPush.InStep(clean, w.mirror)
  {
    var n := |w.src.stored| - 1;
    clean := w.src.(stored := w.src.stored[..n]);
    LinkedPrefix(w.src.stored, n);
    assert LinkedAt(w.src.stored, n);
    forall i, j {:trigger RevisionsGrowAt(clean.stored, i, j)} ensures RevisionsGrowAt(clean.stored, i, j) {
      assert RevisionsGrowAt(w.src.stored, i, j);
    }
    if w.mirror.log != [] {
      var last := |w.mirror.log| - 1;
      assert LinkedAt(w.mirror.log, last) && w.mirror.log[last] in w.sent;
    }
  }

  // ---------------------------------------------------------------- what is sent decides

  /** Nothing beyond the produced cursor is stored, so nothing beyond it can be sent. */
  predicate NothingBeyond(s: Source) {
    forall i :: 0 <= i < |s.stored| ==> s.stored[i].content.cursor <= s.produced
  }

  /** Every batch is compiled from a repository with nothing beyond the produced cursor, crash or no crash. */
  ghost predicate SettledSends(scope: Scope, hash: Content -> Digest, acts: seq<Action>, n: nat)
    requires n <= |acts|
  {
    forall i :: 0 <= i < n && acts[i].Send? ==>
      var w := Run(START, scope, hash, acts, i); w.half.Some? || NothingBeyond(w.src)
  }

  ghost predicate SentInOrder(w: World) {
    forall e :: e in w.sent ==> e.content.cursor <= w.src.produced
  }

  lemma NextKeepsSent(w: World, scope: Scope, hash: Content -> Digest, act: Action)
    requires Bounded(w, hash) && SentInOrder(w) && (act.Send? ==> w.half.Some? || NothingBeyond(w.src))
    ensures SentInOrder(Next(w, scope, hash, act))
  {
    if act.Send? {
      PendingIsStored(w.src, |w.src.stored|);
    }
  }

  lemma {:induction false} SettledRunKeepsSent(scope: Scope, hash: Content -> Digest, acts: seq<Action>, n: nat)
    requires n <= |acts| && SettledSends(scope, hash, acts, n)
    ensures SentInOrder(Run(START, scope, hash, acts, n))
  {
    if n > 0 {
      SettledRunKeepsSent(scope, hash, acts, n - 1);
      RunKeepsBounded(scope, hash, acts, n - 1);
      NextKeepsSent(Run(START, scope, hash, acts, n - 1), scope, hash, acts[n - 1]);
    }
  }

  /** Crashes anywhere: the three cursors are in order in every run that never sends while an envelope is stored
      beyond the produced cursor. */
  lemma SettledSendsKeepOrder(scope: Scope, hash: Content -> Digest, acts: seq<Action>)
    requires SettledSends(scope, hash, acts, |acts|)
    ensures var w := Run(START, scope, hash, acts, |acts|); w.src.acked <= |w.mirror.log| <= w.src.produced
  {
    RunKeepsBounded(scope, hash, acts, |acts|);
    SettledRunKeepsSent(scope, hash, acts, |acts|);
    var w := Run(START, scope, hash, acts, |acts|);
    if w.mirror.log != [] {
      var last := |w.mirror.log| - 1;
      assert LinkedAt(w.mirror.log, last) && w.mirror.log[last] in w.sent;
    }
  }

  // ---------------------------------------------------------------- when the order can be broken

  /** Envelopes that were sent carry the mirror's log on, link by link, to one beyond the produced cursor. */
  ghost predicate Overtakes(w: World, scope: Scope, chain: seq<Envelope>) {
    && w.mirror.log <= chain && |chain| == w.src.produced + 1 && Deliverable(chain, scope)
    && forall i :: |w.mirror.log| <= i < |chain| ==> chain[i] in w.sent
  }

  ghost predicate CanOvertake(w: World, scope: Scope) {
    exists chain :: Overtakes(w, scope, chain)
  }

  predicate InOrder(w: World) {
    w.src.acked <= |w.mirror.log| <= w.src.produced
  }

  ghost predicate LogInScope(log: seq<Envelope>, scope: Scope) {
    forall i {:trigger InScopeAt(log, i, scope)} :: InScopeAt(log, i, scope)
  }

  lemma ReceiveKeepsScope(m: SourceLog, scope: Scope, e: Envelope)
    requires LogInScope(m.log, scope)
    ensures LogInScope(Receive(m, scope, e).1.log, scope)
  {
    var next := Receive(m, scope, e).1;
    forall i {:trigger InScopeAt(next.log, i, scope)} ensures InScopeAt(next.log, i, scope) {
      assert InScopeAt(m.log, i, scope);
    }
  }

  lemma {:induction false} BatchKeepsScope(m: SourceLog, scope: Scope, es: seq<Envelope>, n: nat)
    requires LogInScope(m.log, scope) && n <= |es|
    ensures LogInScope(ReceiveFirst(m, scope, es, n).1.log, scope)
  {
    if n > 0 {
      BatchKeepsScope(m, scope, es, n - 1);
      ReceiveKeepsScope(ReceiveFirst(m, scope, es, n - 1).1, scope, es[n - 1]);
    }
  }

  lemma OnlyDeliveryTouchesMirror(w: World, scope: Scope, hash: Content -> Digest, act: Action)
    requires !act.Deliver?
    ensures Next(w, scope, hash, act).mirror == w.mirror
  {
  }

  lemma {:induction false} RunKeepsScope(scope: Scope, hash: Content -> Digest, acts: seq<Action>, n: nat)
    requires n <= |acts|
    ensures LogInScope(Run(START, scope, hash, acts, n).mirror.log, scope)
  {
    if n > 0 {
      var before := Run(START, scope, hash, acts, n - 1);
      RunKeepsScope(scope, hash, acts, n - 1);
      var act := acts[n - 1];
      if act.Deliver? {
        DeliveryTouchesMirror(before, scope, hash, act.batch);
        BatchKeepsScope(before.mirror, scope, act.batch, |act.batch|);
      } else {
        OnlyDeliveryTouchesMirror(before, scope, hash, act);
      }
    }
  }

  /** A delivery that leaves the mirror ahead has found such a chain. */
  lemma BreakingDeliveryOvertakes(w: World, scope: Scope, hash: Content -> Digest, batch: seq<Envelope>)
    requires Bounded(w, hash) && LogInScope(w.mirror.log, scope) && |w.mirror.log| <= w.src.produced
    requires |Next(w, scope, hash, Deliver(batch)).mirror.log| > w.src.produced
    ensures Overtakes(w, scope, Next(w, scope, hash, Deliver(batch)).mirror.log)
  {
    var next := Next(w, scope, hash, Deliver(batch));
    var chain := next.mirror.log;
    DeliveryTouchesMirror(w, scope, hash, batch);
    BatchKeepsChain(w.mirror, scope, batch, |batch|);
    BatchKeepsScope(w.mirror, scope, batch, |batch|);
    var last := |chain| - 1;
    assert LinkedAt(chain, last) && chain[last] in chain;
    forall i | |w.mirror.log| <= i < |chain| ensures chain[i] in w.sent {
      assert chain[i] in chain;
    }
  }

  /** Such a chain is taken by the mirror when its rest is delivered as one batch. */
  lemma OvertakingIsDelivered(w: World, scope: Scope, hash: Content -> Digest, chain: seq<Envelope>) returns (batch: seq<Envelope>)
    requires Bounded(w, hash) && |w.mirror.log| <= w.src.produced && Overtakes(w, scope, chain)
    ensures Next(w, scope, hash, Deliver(batch)).mirror.log == chain
  {
    var held := |w.mirror.log|;
    batch := chain[held..];
    assert w.mirror.log == chain[..held];
    assert Stretch(batch, |batch|, chain, held);
    var next := CatchUp(w.mirror, scope, chain, held, held, batch, |batch|);
    assert chain[..|chain|] == chain;
  }

  /** In every run, crashes anywhere: some delivery of what was sent can put the mirror ahead of the produced cursor
      exactly when such a chain was sent. */
  lemma OvertakenIff(scope: Scope, hash: Content -> Digest, acts: seq<Action>, n: nat)
    requires n <= |acts| && InOrder(Run(START, scope, hash, acts, n))
    ensures var w := Run(START, scope, hash, acts, n);
      CanOvertake(w, scope) <==> exists batch :: !InOrder(Next(w, scope, hash, Deliver(batch)))
  {
    var w := Run(START, scope, hash, acts, n);
    RunKeepsBounded(scope, hash, acts, n);
    RunKeepsScope(scope, hash, acts, n);
    if CanOvertake(w, scope) {
      var chain :| Overtakes(w, scope, chain);
      var batch := OvertakingIsDelivered(w, scope, hash, chain);
      assert !InOrder(Next(w, scope, hash, Deliver(batch)));
    }
    if batch :| !InOrder(Next(w, scope, hash, Deliver(batch))) {
      OnlyOvertakingBreaksOrder(w, scope, hash, Deliver(batch));
    }
  }

  /** No action but the delivery of such a chain breaks the order. */
  lemma OnlyOvertakingBreaksOrder(w: World, scope: Scope, hash: Content -> Digest, act: Action)
    requires Bounded(w, hash) && LogInScope(w.mirror.log, scope) && InOrder(w)
    requires !InOrder(Next(w, scope, hash, act))
    ensures CanOvertake(w, scope)
  {
    NextKeepsBounded(w, scope, hash, act);
    if act.Deliver? {
      DeliveryTouchesMirror(w, scope, hash, act.batch);
      BreakingDeliveryOvertakes(w, scope, hash, act.batch);
    } else {
      OnlyDeliveryTouchesMirror(w, scope, hash, act);
      ProducedGrows(w, scope, hash, act);
    }
  }

  lemma ProducedGrows(w: World, scope: Scope, hash: Content -> Digest, act: Action)
    requires Bounded(w, hash)
    ensures w.src.produced <= Next(w, scope, hash, act).src.produced
  {
  }

  /** A crash in the window and then a send before anything new is compiled: the orphan goes out beyond the
      produced cursor, and some delivery of what was sent puts the mirror ahead. */
  lemma SendAfterCutOvertakes(w: World, scope: Scope, hash: Content -> Digest)
    requires Ordered(w, scope, hash) && w.half.Some?
    ensures CanOvertake(Next(Next(w, scope, hash, Crash), scope, hash, Send), scope)
  {
    var clean := CrashLeavesOrphan(w, scope, hash);
    var orphan := w.half.value;
    var s := w.src;
    SyncPush.OrphanPending(s, clean, orphan, scope, hash);
    CleanIsDeliverable(Advance(s, orphan), scope, hash);
    var sent := Next(Next(w, scope, hash, Crash), scope, hash, Send);
    forall i | |w.mirror.log| <= i < |s.stored| ensures s.stored[i] in sent.sent {
      assert Pending(s)[i - s.acked] == s.stored[i];
    }
    assert Overtakes(sent, scope, s.stored);
  }

  ghost predicate OrderedAt(scope: Scope, hash: Content -> Digest, acts: seq<Action>, i: nat)
    requires i <= |acts|
  {
    var w := Run(START, scope, hash, acts, i);
    InOrder(w) && forall batch :: InOrder(Next(w, scope, hash, Deliver(batch)))
  }

  ghost predicate BehindAt(scope: Scope, hash: Content -> Digest, acts: seq<Action>, i: nat)
    requires i <= |acts|
  {
    !CanOvertake(Run(START, scope, hash, acts, i), scope)
  }

  lemma {:induction false} BehindRunIsOrdered(scope: Scope, hash: Content -> Digest, acts: seq<Action>, n: nat)
    requires n <= |acts| && forall i :: 0 <= i < n ==> BehindAt(scope, hash, acts, i)
    ensures InOrder(Run(START, scope, hash, acts, n))
  {
    if n > 0 {
      var before := Run(START, scope, hash, acts, n - 1);
      BehindRunIsOrdered(scope, hash, acts, n - 1);
      RunKeepsBounded(scope, hash, acts, n - 1);
      RunKeepsScope(scope, hash, acts, n - 1);
      assert BehindAt(scope, hash, acts, n - 1);
      if !InOrder(Next(before, scope, hash, acts[n - 1])) {
        OnlyOvertakingBreaksOrder(before, scope, hash, acts[n - 1]);
      }
    }
  }

  /** The exact condition for whole runs: the cursors stay in order throughout, whatever is delivered next at any point,
      exactly when at no point a chain was sent that carries the mirror beyond the produced cursor. */
  lemma OrderRunIff(scope: Scope, hash: Content -> Digest, acts: seq<Action>)
    ensures (forall i :: 0 <= i <= |acts| ==> OrderedAt(scope, hash, acts, i))
      <==> (forall i :: 0 <= i <= |acts| ==> BehindAt(scope, hash, acts, i))
  {
    if forall i :: 0 <= i <= |acts| ==> BehindAt(scope, hash, acts, i) {
      forall i | 0 <= i <= |acts| ensures OrderedAt(scope, hash, acts, i) {
        BehindRunIsOrdered(scope, hash, acts, i);
        OvertakenIff(scope, hash, acts, i);
        assert BehindAt(scope, hash, acts, i);
      }
    }
    if forall i :: 0 <= i <= |acts| ==> OrderedAt(scope, hash, acts, i) {
      forall i | 0 <= i <= |acts| ensures BehindAt(scope, hash, acts, i) {
        assert OrderedAt(scope, hash, acts, i);
        OvertakenIff(scope, hash, acts, i);
      }
    }
  }

  /** What a push after a crash in the window does to the order of the cursors, in every run that was orderly up to
      then: the mirror stays at or behind the produced cursor exactly when compiling finds a changed record. */
  lemma OrderAfterCrashIff(scope: Scope, hash: Content -> Digest, acts: seq<Action>, rs: seq<Record>, at: int)
    requires Orderly(scope, hash, acts, |acts|) && Run(START, scope, hash, acts, |acts|).half.Some?
    requires SyncPush.AllowedRecords(rs, scope)
    ensures var w := Next(Run(START, scope, hash, acts, |acts|), scope, hash, Crash);
      var (s', m') := SyncPush.Push(w.src, w.mirror, scope, hash, rs, at);
      |m'.log| <= s'.produced <==> SyncPush.FirstChanged(w.src, rs, |rs|).Some?
  {
    OrderlyRunKeepsOrdered(scope, hash, acts, |acts|);
    var w := Run(START, scope, hash, acts, |acts|);
    var clean := CrashLeavesOrphan(w, scope, hash);
    SyncPush.PushKeepsOrderIff(w.src, clean, w.half.value, w.mirror, scope, hash, rs, at);
  }

  // ---------------------------------------------------------------- the failing runs

  /** Compiling one record into an empty repository, cut off between the two saves. */
  function CutOff(r: Record, at: int): seq<Action> {
    [StartCompile, SaveEnvelope(r, at), Crash]
  }

  /** Three actions from the start reach an orphan. */
  lemma CutOffLeavesOrphan(scope: Scope, hash: Content -> Digest, r: Record, at: int) returns (orphan: Envelope)
    requires r.key.class_ in scope.allowed
    ensures orphan.content.record == r.key && orphan.content.payload == r.payload
    ensures Run(START, scope, hash, CutOff(r, at), 3) == START.(src := NEW_SOURCE.(stored := [orphan]))
    ensures SyncPush.Orphaned(NEW_SOURCE.(stored := [orphan]), NEW_SOURCE, orphan, scope, hash)
    ensures SyncPush.InStep(NEW_SOURCE, EMPTY_LOG)
  {
    var acts := CutOff(r, at);
    orphan := NextEnvelope(NEW_SOURCE, map[], scope, hash, r, at);
    assert Run(START, scope, hash, acts, 1) == START.(latest := Some(map[]));
    SaveAppends(NEW_SOURCE, map[], scope, hash, r, at);
    assert Run(START, scope, hash, acts, 2)
      == START.(latest := Some(map[]), src := NEW_SOURCE.(stored := [orphan]), half := Some(orphan));
  }

  /** From there, pushing the same record again puts the mirror one ahead of the produced cursor, and pushing another
      record first leaves the mirror ahead of the acknowledged cursor, with its batch refused. */
  lemma CutOffRuns(scope: Scope, hash: Content -> Digest, r: Record, other: Record, at: int, later: int)
    requires r.key.class_ in scope.allowed && other.key.class_ in scope.allowed && other.key != r.key
    ensures var w := Run(START, scope, hash, CutOff(r, at), 3);
      var (s', m') := SyncPush.Push(w.src, w.mirror, scope, hash, [r], later);
      s'.produced == 0 && |m'.log| == 1
    ensures var w := Run(START, scope, hash, CutOff(r, at), 3);
      var (s', m') := SyncPush.Push(w.src, w.mirror, scope, hash, [other, r], later);
      s'.acked == 0 && |m'.log| == 1 <= s'.produced
  {
    var orphan := CutOffLeavesOrphan(scope, hash, r, at);
    var s := NEW_SOURCE.(stored := [orphan]);
    assert LatestOf(s.stored, 1) == map[r.key := orphan];
    assert SyncPush.FirstChanged(s, [r], 1).None?;
    SyncPush.CompileAfterCrash(s, NEW_SOURCE, orphan, scope, hash, [r], later, 1);
    SyncPush.OrphanOvertakes(s, NEW_SOURCE, orphan, EMPTY_LOG, scope, hash);
    var rs := [other, r];
    assert SyncPush.FirstChanged(s, rs, 1) == Some(0) && SyncPush.FirstChanged(s, rs, 2) == Some(0);
    SyncPush.CompileAfterCrash(s, NEW_SOURCE, orphan, scope, hash, rs, later, 2);
    SyncPush.StuckIsRefused(Compile(s, scope, hash, rs, later), s, NEW_SOURCE, orphan, EMPTY_LOG, scope, hash);
  }

  // ---------------------------------------------------------------- an undisturbed push, save by save

  /** Producer and mirror hold one chain, all of it acknowledged, and nothing is under way. */
  ghost predicate Level(w: World, scope: Scope, hash: Content -> Digest) {
    && w.half.None? && Clean(w.src, scope, hash) && Chained(w.mirror) && w.mirror.log == w.src.stored
    && w.src.acked == w.src.produced
  }

  /** The envelope a changed record is compiled to. */
  function Compiled(w: World, scope: Scope, hash: Content -> Digest, r: Record, at: int): Envelope {
    NextEnvelope(w.src, LatestOf(w.src.stored, |w.src.stored|), scope, hash, r, at)
  }

  /** Three saves compile a changed record: the chain and the produced cursor go one further. */
  lemma CompiledInThree(w: World, scope: Scope, hash: Content -> Digest, r: Record, at: int)
    requires Level(w, scope, hash) && r.key.class_ in scope.allowed && Changed(LatestOf(w.src.stored, |w.src.stored|), r)
    ensures var e := Compiled(w, scope, hash, r, at);
      var next := Next(Next(Next(w, scope, hash, StartCompile), scope, hash, SaveEnvelope(r, at)), scope, hash, SaveCursor);
      && next.src == Advance(w.src.(stored := w.src.stored + [e]), e) && Clean(next.src, scope, hash)
      && next.half.None? && next.mirror == w.mirror && next.sent == w.sent && next.acks == w.acks
  {
    var latest := LatestOf(w.src.stored, |w.src.stored|);
    SaveAppends(w.src, latest, scope, hash, r, at);
    var saved := Next(Next(w, scope, hash, StartCompile), scope, hash, SaveEnvelope(r, at));
    assert saved.src == w.src.(stored := w.src.stored + [Compiled(w, scope, hash, r, at)]);
  }

  lemma LastIsPending(s: Source, scope: Scope, hash: Content -> Digest)
    requires Clean(s, scope, hash) && |s.stored| == s.acked + 1
    ensures Pending(s) == [s.stored[s.acked]]
  {
    forall i | 0 <= i < |s.stored| ensures s.stored[i].content.cursor == i + 1 {
      assert LinkedAt(s.stored, i);
    }
    PendingIsSuffix(s, |s.stored|);
    assert s.stored[s.acked..] == [s.stored[s.acked]];
  }

  /** The mirror takes the last envelope of a chain that it holds up to there. */
  lemma LastIsTaken(m: SourceLog, s: Source, scope: Scope, hash: Content -> Digest)
    requires Clean(s, scope, hash) && Chained(m) && |s.stored| == |m.log| + 1 && m.log <= s.stored
    ensures var e := s.stored[|m.log|]; var (acks, next) := ReceiveAll(m, scope, [e]);
      acks == Ok([Ack(e.content.cursor, e.digest, Accepted)]) && next.log == s.stored && Chained(next)
  {
    var n := |m.log|;
    var e := s.stored[n];
    CleanIsDeliverable(s, scope, hash);
    assert LinkedAt(s.stored, n) && InScopeAt(s.stored, n, scope);
    forall i | 0 <= i < n ensures m.log[i].content.id != e.content.id {
      assert IdsDiffer(s.stored, i, n);
      assert m.log[i] == s.stored[i];
    }
    ReceiveAnswers(m, scope, e);
    ReceiveKeepsChain(m, scope, e);
    assert ReceiveFirst(m, scope, [e], 0) == (Ok([]), m);
    assert m.log + [e] == s.stored;
    ReceiveNext(m, scope, [e], 0, [], m, Ack(e.content.cursor, e.digest, Accepted), Receive(m, scope, e).1);
    assert [] + [Ack(e.content.cursor, e.digest, Accepted)] == [Ack(e.content.cursor, e.digest, Accepted)];
  }

  /** Sending, delivering and settling what was compiled brings mirror and acknowledgement up to the producer. */
  lemma SettledInThree(w: World, scope: Scope, hash: Content -> Digest)
    requires w.half.None? && Clean(w.src, scope, hash) && Chained(w.mirror)
    requires |w.src.stored| == |w.mirror.log| + 1 == w.src.acked + 1 && w.mirror.log <= w.src.stored
    ensures var e := w.src.stored[w.src.acked];
      var done := Next(Next(Next(w, scope, hash, Send), scope, hash, Deliver([e])), scope, hash, SettleAck(Ack(e.content.cursor, e.digest, Accepted)));
      Level(done, scope, hash) && done.src == w.src.(acked := w.src.produced)
  {
    var e := w.src.stored[w.src.acked];
    var ack := Ack(e.content.cursor, e.digest, Accepted);
    assert LinkedAt(w.src.stored, w.src.acked);
    LastIsPending(w.src, scope, hash);
    LastIsTaken(w.mirror, w.src, scope, hash);
    var sent := Next(w, scope, hash, Send);
    assert sent.pending == [e] && e in sent.sent;
    var delivered := Next(sent, scope, hash, Deliver([e]));
    assert ack in delivered.acks;
    AcknowledgeAnswers(w.src, [e], ack);
    assert [e][0].content.cursor == ack.cursor;
  }

  /** A whole push of one changed record, undisturbed: six actions of the protocol take a level world to a level world with
      the record's new envelope at the end of the chain. */
  lemma PushIsRun(w: World, scope: Scope, hash: Content -> Digest, r: Record, at: int)
    requires Level(w, scope, hash) && r.key.class_ in scope.allowed && Changed(LatestOf(w.src.stored, |w.src.stored|), r)
    ensures var e := Compiled(w, scope, hash, r, at);
      var compiled := Next(Next(Next(w, scope, hash, StartCompile), scope, hash, SaveEnvelope(r, at)), scope, hash, SaveCursor);
      var done := Next(Next(Next(compiled, scope, hash, Send), scope, hash, Deliver([e])), scope, hash,
                       SettleAck(Ack(e.content.cursor, e.digest, Accepted)));
      Level(done, scope, hash) && done.src.stored == w.src.stored + [e] && done.src.produced == w.src.produced + 1
  {
    CompiledInThree(w, scope, hash, r, at);
    var compiled := Next(Next(Next(w, scope, hash, StartCompile), scope, hash, SaveEnvelope(r, at)), scope, hash, SaveCursor);
    var e := Compiled(w, scope, hash, r, at);
    assert compiled.src.stored == w.src.stored + [e] && compiled.src.acked == |w.src.stored| && compiled.src.produced == |w.src.stored| + 1;
    assert compiled.src.stored[compiled.src.acked] == e;
    SettledInThree(compiled, scope, hash);
  }
}
