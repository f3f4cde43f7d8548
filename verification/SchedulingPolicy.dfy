/** Bounded-aging priority and the canonical ranking of ready candidates. Times are in milliseconds. */
module SchedulingPolicy {
  import opened Common
  import opened Lists
  import opened TextOrder

  datatype Priority = Critical | High | Normal | Low

  datatype Policy = Policy(
    workspaceId: string, active: bool, order: seq<Priority>, intervalSeconds: nat, maxBoostSteps: nat, reuseSessions: bool)

  datatype Candidate = Candidate(
    id: string, workspaceId: string, ready: bool, priority: Priority, readySince: int, reusable: bool)

  /** What the policy constructor guarantees. */
  predicate ValidPolicy(p: Policy) {
    && |p.order| == 4 && (forall i, j :: 0 <= i < j < 4 ==> p.order[i] != p.order[j])
    && (forall q: Priority :: q in p.order)
    && p.intervalSeconds >= 1 && p.maxBoostSteps <= 3
  }

  // ---------------------------------------------------------------- effective priority

  function Min(a: int, b: int): int {
    if a <= b then a else b
  }

  function Max(a: int, b: int): int {
    if a >= b then a else b
  }

  function AgeSeconds(c: Candidate, now: int): nat {
    Max(0, (now - c.readySince) / 1000)
  }

  function AgeBucket(p: Policy, c: Candidate, now: int): nat
    requires ValidPolicy(p)
  {
    AgeSeconds(c, now) / p.intervalSeconds
  }

  function RawRank(p: Policy, c: Candidate): nat
    requires ValidPolicy(p)
  {
    IndexOf(p.order, c.priority)
  }

  function BoostSteps(p: Policy, c: Candidate, now: int): nat
    requires ValidPolicy(p)
  {
    Min(p.maxBoostSteps, AgeBucket(p, c, now))
  }

  function EffectiveRank(p: Policy, c: Candidate, now: int): nat
    requires ValidPolicy(p)
  {
    Max(0, RawRank(p, c) - BoostSteps(p, c, now))
  }

  lemma DivideMonotone(a: int, b: int, d: int)
    requires a <= b && d >= 1
    ensures a / d <= b / d
  {
    var qa, qb := a / d, b / d;
    assert qa >= qb + 1 ==> d * qa >= d * (qb + 1);
    assert d * qa <= a && b < d * (qb + 1);
  }

  /** Waiting longer never lowers a candidate: its boost grows with time, stays within the configured steps and
      lifts it by at most that many ranks. */
  lemma AgingIsBoundedAndMonotone(p: Policy, c: Candidate, now: int, later: int)
    requires ValidPolicy(p) && now <= later
    ensures BoostSteps(p, c, now) <= BoostSteps(p, c, later) <= p.maxBoostSteps
    ensures EffectiveRank(p, c, later) <= EffectiveRank(p, c, now) <= RawRank(p, c)
    ensures RawRank(p, c) <= EffectiveRank(p, c, later) + p.maxBoostSteps
    ensures AgeBucket(p, c, now) <= AgeBucket(p, c, later)
  {
    DivideMonotone(now - c.readySince, later - c.readySince, 1000);
    DivideMonotone(AgeSeconds(c, now), AgeSeconds(c, later), p.intervalSeconds);
  }

  /** The whole number of intervals a candidate has waited decides everything about its age: each one lifts it by one rank, up
      to the configured steps and never above the top. A candidate that becomes ready later has no age. */
  lemma BoostIsCounted(p: Policy, c: Candidate, now: int, k: nat)
    requires ValidPolicy(p)
    requires k * p.intervalSeconds <= (now - c.readySince) / 1000 < (k + 1) * p.intervalSeconds || (k == 0 && now < c.readySince)
    ensures AgeBucket(p, c, now) == k
    ensures BoostSteps(p, c, now) == if k <= p.maxBoostSteps then k else p.maxBoostSteps
    ensures p.order[RawRank(p, c)] == c.priority
    ensures RawRank(p, c) <= BoostSteps(p, c, now) ==> EffectiveRank(p, c, now) == 0
    ensures RawRank(p, c) > BoostSteps(p, c, now) ==> EffectiveRank(p, c, now) == RawRank(p, c) - BoostSteps(p, c, now)
  {
    if now >= c.readySince {
      QuotientIs(AgeSeconds(c, now), p.intervalSeconds, k);
    } else {
      assert (now - c.readySince) / 1000 < 0;
    }
  }

  lemma Scale(x: int, y: int, d: nat)
    requires x <= y
    ensures x * d <= y * d
  {
    assert y * d - x * d == (y - x) * d;
  }

  lemma QuotientIs(a: int, d: int, k: int)
    requires d >= 1 && k * d <= a < (k + 1) * d
    ensures a / d == k
  {
    var q := a / d;
    if q < k {
      Scale(q + 1, k, d);
    } else if q > k {
      Scale(k + 1, q, d);
    }
  }

  // ---------------------------------------------------------------- the ranking order

  /** The comparison tuple of a candidate. */
  datatype Key = Key(rank: int, minusBucket: int, activeCount: int, reuse: int, since: int, id: string)

  function KeyOf(p: Policy, c: Candidate, now: int, activeCount: nat): Key
    requires ValidPolicy(p)
  {
    Key(EffectiveRank(p, c, now), 0 - AgeBucket(p, c, now), activeCount, if p.reuseSessions && c.reusable then 0 else 1, c.readySince, c.id)
  }

  predicate Less(a: Key, b: Key) {
    if a.rank != b.rank then a.rank < b.rank
    else if a.minusBucket != b.minusBucket then a.minusBucket < b.minusBucket
    else if a.activeCount != b.activeCount then a.activeCount < b.activeCount
    else if a.reuse != b.reuse then a.reuse < b.reuse
    else if a.since != b.since then a.since < b.since
    else StringLess(a.id, b.id)
  }

  /** The comparison is a strict total order on keys, so on candidates with distinct ids. */
  lemma KeysAreTotallyOrdered(a: Key, b: Key, c: Key)
    ensures !Less(a, a)
    ensures Less(a, b) && Less(b, c) ==> Less(a, c)
    ensures a != b ==> Less(a, b) != Less(b, a)
  {
    StringOrder(a.id, b.id);
    StringIrreflexive(a.id);
    if StringLess(a.id, b.id) && StringLess(b.id, c.id) {
      StringTransitive(a.id, b.id, c.id);
    }
  }

  /** The candidate may go on in a session that is already there, and the policy prefers that. */
  predicate Reuses(p: Policy, c: Candidate) {
    p.reuseSessions && c.reusable
  }

  /** What decides between two candidates of one workspace: the better effective rank; then the longer wait, in whole
      intervals; then a session that can be reused; then the earlier ready time; then the id. */
  predicate Precedes(p: Policy, a: Candidate, b: Candidate, now: int)
    requires ValidPolicy(p)
  {
    || EffectiveRank(p, a, now) < EffectiveRank(p, b, now)
    || (EffectiveRank(p, a, now) == EffectiveRank(p, b, now) &&
        (|| AgeBucket(p, a, now) > AgeBucket(p, b, now)
         || (AgeBucket(p, a, now) == AgeBucket(p, b, now) &&
             (|| (Reuses(p, a) && !Reuses(p, b))
              || (Reuses(p, a) == Reuses(p, b) &&
                  (a.readySince < b.readySince || (a.readySince == b.readySince && StringLess(a.id, b.id))))))))
  }

  /** The comparison of tuples decides exactly that. */
  lemma LessIff(p: Policy, a: Candidate, b: Candidate, now: int, activeCount: nat)
    requires ValidPolicy(p)
    ensures Less(KeyOf(p, a, now, activeCount), KeyOf(p, b, now, activeCount)) <==> Precedes(p, a, b, now)
  {
  }

  // ---------------------------------------------------------------- ranking

  datatype Entry = Entry(candidate: Candidate, key: Key)

  datatype RankError = NoActivePolicy | NotReady | CrossWorkspace | DuplicateId

  function EntryOf(p: Policy, c: Candidate, now: int, activeCount: nat): Entry
    requires ValidPolicy(p)
  {
    Entry(c, KeyOf(p, c, now, activeCount))
  }

  predicate Sorted(s: seq<Entry>) {
    forall i, j :: 0 <= i < j < |s| ==> Less(s[i].key, s[j].key)
  }

  predicate Refused(p: Policy, cs: seq<Candidate>, i: nat)
    requires i < |cs|
  {
    !cs[i].ready || cs[i].workspaceId != p.workspaceId || exists j :: 0 <= j < i && cs[j].id == cs[i].id
  }

  function EntriesOf(p: Policy, cs: seq<Candidate>, now: int, activeCount: nat): seq<Entry>
    requires ValidPolicy(p)
  {
    seq(|cs|, i requires 0 <= i < |cs| => EntryOf(p, cs[i], now, activeCount))
  }

  /** The first `i` candidates were accepted: `seen` holds their ids and `ranked` their entries, in order. */
  ghost predicate RankedSoFar(p: Policy, cs: seq<Candidate>, all: seq<Entry>, i: nat, seen: set<string>, ranked: seq<Entry>)
    requires i <= |cs| == |all|
  {
    && (forall x :: x in seen <==> exists j :: 0 <= j < i && cs[j].id == x)
    && (forall j :: 0 <= j < i ==> !Refused(p, cs, j))
    && Sorted(ranked) && multiset(ranked) == multiset(all[..i])
    && forall e :: e in ranked ==> e.key.id in seen
  }

  lemma RankOneMore(p: Policy, cs: seq<Candidate>, all: seq<Entry>, i: nat, seen: set<string>, ranked: seq<Entry>, next: seq<Entry>)
    requires i < |cs| == |all| && RankedSoFar(p, cs, all, i, seen, ranked) && all[i].key.id == cs[i].id
    requires cs[i].ready && cs[i].workspaceId == p.workspaceId && cs[i].id !in seen
    requires Sorted(next) && multiset(next) == multiset(ranked) + multiset{all[i]}
    requires forall x :: x in next <==> x in ranked || x == all[i]
    ensures RankedSoFar(p, cs, all, i + 1, seen + {cs[i].id}, next)
  {
    assert all[..i + 1] == all[..i] + [all[i]];
    assert !Refused(p, cs, i);
  }

  /** What is wrong with candidate `i`, when nothing was wrong with those before it. */
  ghost function FirstFault(p: Policy, cs: seq<Candidate>, i: nat): Option<RankError>
    requires i < |cs|
  {
    if exists j :: 0 <= j < i && Refused(p, cs, j) then None
    else if !cs[i].ready then Some(NotReady)
    else if cs[i].workspaceId != p.workspaceId then Some(CrossWorkspace)
    else if exists j :: 0 <= j < i && cs[j].id == cs[i].id then Some(DuplicateId)
    else None
  }

  /** Sorted entries of candidates stand in the order that was named. */
  lemma RankedPrecede(p: Policy, cs: seq<Candidate>, now: int, activeCount: nat, s: seq<Entry>)
    requires ValidPolicy(p) && Sorted(s) && multiset(s) == multiset(EntriesOf(p, cs, now, activeCount))
    ensures forall i, j :: 0 <= i < j < |s| ==> Precedes(p, s[i].candidate, s[j].candidate, now)
  {
    var all := EntriesOf(p, cs, now, activeCount);
    forall i | 0 <= i < |s| ensures s[i] == EntryOf(p, s[i].candidate, now, activeCount) {
      assert s[i] in multiset(all);
      var k :| 0 <= k < |all| && all[k] == s[i];
    }
    forall i, j | 0 <= i < j < |s| ensures Precedes(p, s[i].candidate, s[j].candidate, now) {
      LessIff(p, s[i].candidate, s[j].candidate, now, activeCount);
    }
  }

  /** Ranking succeeds exactly when no candidate is refused, and then returns the candidates in sorted order. */
  method RankCandidates(p: Policy, cs: seq<Candidate>, now: int, activeCount: nat) returns (r: Result<seq<Entry>, RankError>)
    requires ValidPolicy(p)
    ensures r.Ok? <==> p.active && forall i :: 0 <= i < |cs| ==> !Refused(p, cs, i)
    ensures r.Ok? ==> Sorted(r.value) && multiset(r.value) == multiset(EntriesOf(p, cs, now, activeCount))
    ensures r.Ok? ==> forall i, j :: 0 <= i < j < |r.value| ==> Precedes(p, r.value[i].candidate, r.value[j].candidate, now)
    ensures r.Err? && !p.active ==> r.error == NoActivePolicy
    ensures r.Err? && p.active ==> exists i :: 0 <= i < |cs| && FirstFault(p, cs, i) == Some(r.error)
  {
    if !p.active {
      return Err(NoActivePolicy);
    }
    var seen: set<string> := {};
    var ranked: seq<Entry> := [];
    var all := EntriesOf(p, cs, now, activeCount);
    for i := 0 to |cs|
      invariant RankedSoFar(p, cs, all, i, seen, ranked)
    {
      var c := cs[i];
      if !c.ready {
        assert Refused(p, cs, i) && FirstFault(p, cs, i) == Some(NotReady);
        return Err(NotReady);
      }
      if c.workspaceId != p.workspaceId {
        assert Refused(p, cs, i) && FirstFault(p, cs, i) == Some(CrossWorkspace);
        return Err(CrossWorkspace);
      }
      if c.id in seen {
        assert Refused(p, cs, i) && FirstFault(p, cs, i) == Some(DuplicateId);
        return Err(DuplicateId);
      }
      var next := Insert(ranked, EntryOf(p, c, now, activeCount));
      RankOneMore(p, cs, all, i, seen, ranked, next);
      seen, ranked := seen + {c.id}, next;
    }
    assert all[..|cs|] == all;
    RankedPrecede(p, cs, now, activeCount, ranked);
    r := Ok(ranked);
  }

  lemma InsertAtOrders(s: seq<Entry>, k: nat, e: Entry, r: seq<Entry>)
    requires Sorted(s) && k <= |s| && r == s[..k] + [e] + s[k..]
    requires forall i :: 0 <= i < k ==> Less(s[i].key, e.key)
    requires forall i :: k <= i < |s| ==> Less(e.key, s[i].key)
    ensures Sorted(r)
  {
    forall i, j | 0 <= i < j < |r| ensures Less(r[i].key, r[j].key) {
      assert r[i] == if i < k then s[i] else if i == k then e else s[i - 1];
      assert r[j] == if j < k then s[j] else if j == k then e else s[j - 1];
      if i < k < j {
        assert Less(s[i].key, s[j - 1].key);
      }
    }
  }

  lemma InsertAtAdds(s: seq<Entry>, k: nat, e: Entry, r: seq<Entry>)
    requires k <= |s| && r == s[..k] + [e] + s[k..]
    ensures multiset(r) == multiset(s) + multiset{e}
    ensures forall x :: x in r <==> x in s || x == e
  {
    assert s == s[..k] + s[k..];
    forall x ensures x in r <==> x in s || x == e {
      assert x in r <==> x in multiset(r);
      assert x in s <==> x in multiset(s);
    }
  }

  method Insert(s: seq<Entry>, e: Entry) returns (r: seq<Entry>)
    requires Sorted(s) && forall x :: x in s ==> x.key != e.key
    ensures Sorted(r) && multiset(r) == multiset(s) + multiset{e}
    ensures forall x :: x in r <==> x in s || x == e
  {
    var k := 0;
    while k < |s| && Less(s[k].key, e.key)
      invariant k <= |s| && forall i :: 0 <= i < k ==> Less(s[i].key, e.key)
    {
      k := k + 1;
    }
    r := s[..k] + [e] + s[k..];
    forall i | k <= i < |s| ensures Less(e.key, s[i].key) {
      KeysAreTotallyOrdered(e.key, s[k].key, s[i].key);
    }
    InsertAtOrders(s, k, e, r);
    InsertAtAdds(s, k, e, r);
  }

  lemma RemoveAt<T>(s: seq<T>, i: nat)
    requires i < |s|
    ensures multiset(s) == multiset{s[i]} + multiset(s[..i] + s[i + 1..])
    ensures multiset(s[..i] + s[i + 1..]) == multiset(s) - multiset{s[i]}
  {
    assert s == s[..i] + [s[i]] + s[i + 1..];
  }

  lemma Tail<T>(s: seq<T>)
    requires s != []
    ensures multiset(s[1..]) == multiset(s) - multiset{s[0]} && s == [s[0]] + s[1..]
  {
    assert s == [s[0]] + s[1..];
    assert multiset(s) == multiset{s[0]} + multiset(s[1..]);
  }

  lemma {:induction false} SortedIsUnique(a: seq<Entry>, b: seq<Entry>)
    requires Sorted(a) && Sorted(b) && multiset(a) == multiset(b)
    ensures a == b
    decreases |a|
  {
    if a == [] || b == [] {
      assert |multiset(a)| == |a| && |multiset(b)| == |b|;
    } else {
      SameHead(a, b);
      Tail(a);
      Tail(b);
      SortedTail(a);
      SortedTail(b);
      SortedIsUnique(a[1..], b[1..]);
    }
  }

  lemma SortedTail(a: seq<Entry>)
    requires Sorted(a) && a != []
    ensures Sorted(a[1..])
  {
    assert forall i :: 0 <= i < |a[1..]| ==> a[1..][i] == a[i + 1];
  }

  lemma SameHead(a: seq<Entry>, b: seq<Entry>)
    requires Sorted(a) && Sorted(b) && multiset(a) == multiset(b) && a != [] && b != []
    ensures a[0] == b[0]
  {
    assert a[0] in multiset(b) && b[0] in multiset(a);
    var i :| 0 <= i < |b| && b[i] == a[0];
    var j :| 0 <= j < |a| && a[j] == b[0];
    KeysAreTotallyOrdered(a[0].key, b[0].key, a[0].key);
  }

  /** Every order of the same candidates is ranked the same way. */
  lemma RankingIsCanonical(p: Policy, cs: seq<Candidate>, ds: seq<Candidate>, now: int, activeCount: nat, a: seq<Entry>, b: seq<Entry>)
    requires ValidPolicy(p) && multiset(cs) == multiset(ds)
    requires Sorted(a) && multiset(a) == multiset(EntriesOf(p, cs, now, activeCount))
    requires Sorted(b) && multiset(b) == multiset(EntriesOf(p, ds, now, activeCount))
    ensures a == b
  {
    EntriesPermute(p, cs, ds, now, activeCount);
    SortedIsUnique(a, b);
  }

  lemma {:induction false} EntriesPermute(p: Policy, cs: seq<Candidate>, ds: seq<Candidate>, now: int, activeCount: nat)
    requires ValidPolicy(p) && multiset(cs) == multiset(ds)
    ensures multiset(EntriesOf(p, cs, now, activeCount)) == multiset(EntriesOf(p, ds, now, activeCount))
    decreases |cs|
  {
    assert |multiset(cs)| == |cs| && |multiset(ds)| == |ds|;
    if cs == [] {
      assert EntriesOf(p, cs, now, activeCount) == [] == EntriesOf(p, ds, now, activeCount);
    } else {
      assert cs[0] in multiset(ds);
      var i :| 0 <= i < |ds| && ds[i] == cs[0];
      Tail(cs);
      RemoveAt(cs, 0);
      RemoveAt(ds, i);
      EntriesPermute(p, cs[1..], ds[..i] + ds[i + 1..], now, activeCount);
      assert cs[..0] + cs[1..] == cs[1..];
      EntriesRemove(p, cs, 0, now, activeCount);
      EntriesRemove(p, ds, i, now, activeCount);
    }
  }

  lemma EntriesRemove(p: Policy, cs: seq<Candidate>, i: nat, now: int, activeCount: nat)
    requires ValidPolicy(p) && i < |cs|
    ensures multiset(EntriesOf(p, cs, now, activeCount))
         == multiset{EntryOf(p, cs[i], now, activeCount)} + multiset(EntriesOf(p, cs[..i] + cs[i + 1..], now, activeCount))
  {
    var e := EntriesOf(p, cs, now, activeCount);
    RemoveAt(e, i);
    assert EntriesOf(p, cs[..i] + cs[i + 1..], now, activeCount) == e[..i] + e[i + 1..];
  }

  // ---------------------------------------------------------------- the ranking as a function

  function InsertEntry(s: seq<Entry>, e: Entry): seq<Entry> {
    if s == [] || Less(s[|s| - 1].key, e.key) then s + [e] else InsertEntry(s[..|s| - 1], e) + [s[|s| - 1]]
  }

  function SortEntries(es: seq<Entry>): seq<Entry> {
    if es == [] then [] else InsertEntry(SortEntries(es[..|es| - 1]), es[|es| - 1])
  }

  function Ranked(p: Policy, cs: seq<Candidate>, now: int, activeCount: nat): seq<Entry>
    requires ValidPolicy(p)
  {
    SortEntries(EntriesOf(p, cs, now, activeCount))
  }

  lemma {:induction false} InsertEntryAdds(s: seq<Entry>, e: Entry)
    ensures multiset(InsertEntry(s, e)) == multiset(s) + multiset{e}
  {
    if s != [] && !Less(s[|s| - 1].key, e.key) {
      InsertEntryAdds(s[..|s| - 1], e);
      assert s == s[..|s| - 1] + [s[|s| - 1]];
    }
  }

  lemma {:induction false} InsertEntryMembers(s: seq<Entry>, e: Entry)
    ensures forall i :: 0 <= i < |InsertEntry(s, e)| ==> InsertEntry(s, e)[i] in s || InsertEntry(s, e)[i] == e
  {
    if s != [] && !Less(s[|s| - 1].key, e.key) {
      InsertEntryMembers(s[..|s| - 1], e);
    }
  }

  lemma {:induction false} InsertEntryKeepsOrder(s: seq<Entry>, e: Entry)
    requires Sorted(s) && forall x :: x in s ==> x.key != e.key
    ensures Sorted(InsertEntry(s, e))
  {
    var n := |s|;
    if s == [] {
    } else if Less(s[n - 1].key, e.key) {
      forall i | 0 <= i < n ensures Less(s[i].key, e.key) {
        KeysAreTotallyOrdered(s[i].key, s[n - 1].key, e.key);
      }
    } else {
      var front, last := s[..n - 1], s[n - 1];
      InsertEntryKeepsOrder(front, e);
      InsertEntryMembers(front, e);
      KeysAreTotallyOrdered(last.key, e.key, last.key);
      var r := InsertEntry(front, e);
      forall i | 0 <= i < |r| ensures Less(r[i].key, last.key) {
        assert r[i] in front || r[i] == e;
      }
    }
  }

  predicate DistinctKeys(es: seq<Entry>) {
    forall i, j :: 0 <= i < j < |es| ==> es[i].key != es[j].key
  }

  lemma Snoc(es: seq<Entry>)
    requires es != []
    ensures es == es[..|es| - 1] + [es[|es| - 1]] && multiset(es) == multiset(es[..|es| - 1]) + multiset{es[|es| - 1]}
  {
    assert es == es[..|es| - 1] + [es[|es| - 1]];
  }

  lemma {:induction false} SortKeeps(es: seq<Entry>)
    ensures multiset(SortEntries(es)) == multiset(es)
  {
    if es != [] {
      Snoc(es);
      SortKeeps(es[..|es| - 1]);
      InsertEntryAdds(SortEntries(es[..|es| - 1]), es[|es| - 1]);
    }
  }

  lemma {:induction false} SortOrders(es: seq<Entry>)
    requires DistinctKeys(es)
    ensures Sorted(SortEntries(es))
  {
    if es != [] {
      var front, last := es[..|es| - 1], es[|es| - 1];
      SortOrders(front);
      SortKeeps(front);
      forall x | x in SortEntries(front) ensures x.key != last.key {
        assert x in multiset(front);
        var i :| 0 <= i < |front| && front[i] == x;
        assert es[i] == x;
      }
      InsertEntryKeepsOrder(SortEntries(front), last);
    }
  }

  /** Candidates with distinct ids are ranked in sorted order, and by nothing else: whatever sorted list of the same
      entries the ranking method returns is this one. */
  lemma RankedIsTheRanking(p: Policy, cs: seq<Candidate>, now: int, activeCount: nat)
    requires ValidPolicy(p) && forall i, j :: 0 <= i < j < |cs| ==> cs[i].id != cs[j].id
    ensures var r := Ranked(p, cs, now, activeCount); var all := EntriesOf(p, cs, now, activeCount);
      && Sorted(r) && multiset(r) == multiset(all)
      && (forall e :: e in r <==> exists i :: 0 <= i < |cs| && e == EntryOf(p, cs[i], now, activeCount))
      && forall s :: Sorted(s) && multiset(s) == multiset(all) ==> s == r
  {
    var all := EntriesOf(p, cs, now, activeCount);
    var r := Ranked(p, cs, now, activeCount);
    SortKeeps(all);
    SortOrders(all);
    forall e ensures e in r <==> exists i :: 0 <= i < |cs| && e == EntryOf(p, cs[i], now, activeCount) {
      assert e in r <==> e in multiset(all);
      if i :| 0 <= i < |cs| && e == EntryOf(p, cs[i], now, activeCount) {
        assert all[i] == e;
      }
    }
    forall s | Sorted(s) && multiset(s) == multiset(all) ensures s == r {
      SortedIsUnique(s, r);
    }
  }

  // ---------------------------------------------------------------- fairness

  /** Of two candidates of one workspace, the one that became ready earlier with no worse a priority is behind the
      other exactly when they tie on effective rank and age bucket and only the later one prefers session reuse. */
  lemma EarlierIsBehindIff(p: Policy, early: Candidate, late: Candidate, now: int, activeCount: nat)
    requires ValidPolicy(p) && early.readySince < late.readySince && RawRank(p, early) <= RawRank(p, late)
    ensures Less(KeyOf(p, late, now, activeCount), KeyOf(p, early, now, activeCount)) <==>
      && EffectiveRank(p, early, now) == EffectiveRank(p, late, now) && AgeBucket(p, early, now) == AgeBucket(p, late, now)
      && p.reuseSessions && late.reusable && !early.reusable
  {
    DivideMonotone(now - late.readySince, now - early.readySince, 1000);
    DivideMonotone(AgeSeconds(late, now), AgeSeconds(early, now), p.intervalSeconds);
  }

  /** Such a pair: one second apart in the same interval, with only the later one preferring its session. */
  lemma LaterOverEarlier(workspaceId: string)
    ensures var p := Policy(workspaceId, true, [Critical, High, Normal, Low], 60, 3, true);
      var early := Candidate("a", workspaceId, true, Normal, 0, false);
      var late := Candidate("b", workspaceId, true, Normal, 1000, true);
      ValidPolicy(p) && Less(KeyOf(p, late, 5000, 0), KeyOf(p, early, 5000, 0))
  {
    var p := Policy(workspaceId, true, [Critical, High, Normal, Low], 60, 3, true);
    var early := Candidate("a", workspaceId, true, Normal, 0, false);
    var late := Candidate("b", workspaceId, true, Normal, 1000, true);
    assert p.order[0] == Critical && p.order[1] == High && p.order[2] == Normal && p.order[3] == Low;
    forall q: Priority ensures q in p.order {
      match q
      case Critical => assert p.order[0] == q;
      case High => assert p.order[1] == q;
      case Normal => assert p.order[2] == q;
      case Low => assert p.order[3] == q;
    }
    assert AgeSeconds(early, 5000) == 5 && AgeSeconds(late, 5000) == 4;
    EarlierIsBehindIff(p, early, late, 5000, 0);
  }

  /** A candidate that has waited out every boost step is ahead of any newcomer less than one interval old whose
      own priority is better by no more than the boost. */
  lemma FullyAgedBeatsNewcomer(p: Policy, aged: Candidate, newcomer: Candidate, now: int, activeCount: nat)
    requires ValidPolicy(p)
    requires AgeBucket(p, aged, now) >= Max(1, p.maxBoostSteps) && AgeBucket(p, newcomer, now) == 0
    requires RawRank(p, aged) <= RawRank(p, newcomer) + p.maxBoostSteps
    ensures Less(KeyOf(p, aged, now, activeCount), KeyOf(p, newcomer, now, activeCount))
  {
  }
}
