/**
 The process closure that the runtime recovery probe takes over the process table, and the browser roots of
 one worker.
 */
module ProcessTracking {
  import opened Lists

  datatype Row = Row(pid: int, ppid: int, command: string)

  // ---------------------------------------------------------------- the reference: chains of parents

  predicate Link(table: seq<Row>, parent: int, child: int) {
    exists i :: 0 <= i < |table| && table[i].ppid == parent && table[i].pid == child
  }

  ghost predicate Chain(table: seq<Row>, seeds: set<int>, c: seq<int>) {
    c != [] && c[0] in seeds && forall k :: 0 <= k < |c| - 1 ==> Link(table, c[k], c[k + 1])
  }

  ghost predicate Descends(table: seq<Row>, seeds: set<int>, pid: int) {
    exists c :: Chain(table, seeds, c) && c[|c| - 1] == pid
  }

  ghost predicate AllDescend(table: seq<Row>, seeds: set<int>, tracked: set<int>) {
    forall p :: p in tracked ==> Descends(table, seeds, p)
  }

  /** The first `n` rows lead out of the set nowhere. */
  ghost predicate ClosedUpTo(table: seq<Row>, tracked: set<int>, n: nat)
    requires n <= |table|
  {
    forall k :: 0 <= k < n && table[k].ppid in tracked ==> table[k].pid in tracked
  }

  lemma ChildDescends(table: seq<Row>, seeds: set<int>, i: nat)
    requires i < |table| && Descends(table, seeds, table[i].ppid)
    ensures Descends(table, seeds, table[i].pid)
  {
    var c :| Chain(table, seeds, c) && c[|c| - 1] == table[i].ppid;
    var d := c + [table[i].pid];
    assert Link(table, table[i].ppid, table[i].pid);
    assert Chain(table, seeds, d);
  }

  /** Descendants lie in every closed set that holds the seeds. */
  lemma {:induction false} ChainStaysInside(table: seq<Row>, seeds: set<int>, closed: set<int>, c: seq<int>)
    requires seeds <= closed && ClosedUpTo(table, closed, |table|) && Chain(table, seeds, c)
    ensures c[|c| - 1] in closed
  {
    var n := |c| - 1;
    if n > 0 {
      assert Link(table, c[n - 1], c[n]);
      ChainStaysInside(table, seeds, closed, c[..n]);
    }
  }

  /** The descendants are the least set that holds the seeds and is closed from parent to child. */
  lemma DescendantsAreLeast(table: seq<Row>, seeds: set<int>, tracked: set<int>, other: set<int>)
    requires forall p :: p in tracked <==> Descends(table, seeds, p)
    ensures seeds <= tracked && ClosedUpTo(table, tracked, |table|)
    ensures seeds <= other && ClosedUpTo(table, other, |table|) ==> tracked <= other
  {
    forall p | p in seeds ensures p in tracked {
      assert Chain(table, seeds, [p]);
    }
    forall k | 0 <= k < |table| && table[k].ppid in tracked ensures table[k].pid in tracked {
      ChildDescends(table, seeds, k);
    }
    if seeds <= other && ClosedUpTo(table, other, |table|) {
      forall p | p in tracked ensures p in other {
        var c :| Chain(table, seeds, c) && c[|c| - 1] == p;
        ChainStaysInside(table, seeds, other, c);
      }
    }
  }

  /** The order in which the table lists its rows does not matter. */
  lemma RowOrderIsIrrelevant(table: seq<Row>, shuffled: seq<Row>, seeds: set<int>, pid: int)
    requires multiset(table) == multiset(shuffled)
    ensures Descends(table, seeds, pid) <==> Descends(shuffled, seeds, pid)
  {
    if Descends(table, seeds, pid) {
      DescendsInShuffled(table, shuffled, seeds, pid);
    }
    if Descends(shuffled, seeds, pid) {
      DescendsInShuffled(shuffled, table, seeds, pid);
    }
  }

  lemma DescendsInShuffled(table: seq<Row>, shuffled: seq<Row>, seeds: set<int>, pid: int)
    requires multiset(table) == multiset(shuffled) && Descends(table, seeds, pid)
    ensures Descends(shuffled, seeds, pid)
  {
    var c :| Chain(table, seeds, c) && c[|c| - 1] == pid;
    forall k | 0 <= k < |c| - 1 ensures Link(shuffled, c[k], c[k + 1]) {
      assert Link(table, c[k], c[k + 1]);
      var i :| 0 <= i < |table| && table[i].ppid == c[k] && table[i].pid == c[k + 1];
      assert table[i] in multiset(shuffled);
      assert table[i] in shuffled;
    }
    assert Chain(shuffled, seeds, c);
  }

  // ---------------------------------------------------------------- the closure loop

  ghost function Untracked(table: seq<Row>, tracked: set<int>): set<int> {
    (set i | 0 <= i < |table| :: table[i].pid) - tracked
  }

  lemma TrackingProgresses(table: seq<Row>, before: set<int>, after: set<int>)
    requires before <= after && Untracked(table, after) != Untracked(table, before)
    ensures |Untracked(table, after)| < |Untracked(table, before)|
  {
    var small, large := Untracked(table, after), Untracked(table, before);
    forall p | p in small ensures p in large {
    }
    var p :| p in large && p !in small;
    assert large == small + (large - small) && p in large - small;
  }

  /** Sweeps the table until no row adds a process; what it tracks is exactly what descends from a seed. */
  method TrackDescendants(table: seq<Row>, seeds: set<int>) returns (tracked: set<int>)
    ensures forall p :: p in tracked <==> Descends(table, seeds, p)
  {
    tracked := seeds;
    forall p | p in seeds ensures Descends(table, seeds, p) {
      assert Chain(table, seeds, [p]);
    }
    var changed := true;
    while changed
      invariant seeds <= tracked && AllDescend(table, seeds, tracked)
      invariant !changed ==> ClosedUpTo(table, tracked, |table|)
      decreases |Untracked(table, tracked)|, changed
    {
      changed := false;
      ghost var before := tracked;
      for i := 0 to |table|
        invariant before <= tracked && AllDescend(table, seeds, tracked)
        invariant if changed then Untracked(table, tracked) != Untracked(table, before) else tracked == before
        invariant !changed ==> ClosedUpTo(table, tracked, i)
      {
        if table[i].ppid in tracked && table[i].pid !in tracked {
          ChildDescends(table, seeds, i);
          assert table[i].pid in Untracked(table, before);
          tracked := tracked + {table[i].pid};
          changed := true;
        }
      }
      if changed {
        TrackingProgresses(table, before, tracked);
      }
    }
    forall p | Descends(table, seeds, p) ensures p in tracked {
      var c :| Chain(table, seeds, c) && c[|c| - 1] == p;
      ChainStaysInside(table, seeds, tracked, c);
    }
  }

  /** The rows the probe reports, in table order: descendants of an active process, and commands that name its
      directories. */
  method RelevantProcesses(table: seq<Row>, active: set<int>, mentions: string -> bool) returns (rows: seq<Row>)
    ensures rows == Keep(table, (r: Row) => Descends(table, active, r.pid) || mentions(r.command))
    ensures forall r :: r in rows <==> r in table && (Descends(table, active, r.pid) || mentions(r.command))
  {
    var tracked := TrackDescendants(table, active);
    var keep := (r: Row) => r.pid in tracked || mentions(r.command);
    KeepHolds(table, keep);
    KeepSame(table, |table|, keep, (r: Row) => Descends(table, active, r.pid) || mentions(r.command));
    rows := Keep(table, keep);
  }

  // ---------------------------------------------------------------- browser roots

  function Matching(table: seq<Row>, names: string -> bool): (matching: seq<Row>)
    ensures forall r :: r in matching <==> r in table && names(r.command)
  {
    KeepHolds(table, (r: Row) => names(r.command));
    Keep(table, (r: Row) => names(r.command))
  }

  function BrowserRoots(table: seq<Row>, names: string -> bool): (roots: seq<Row>)
    ensures forall r :: r in roots <==>
      && r in table && names(r.command)
      && forall s :: s in table && names(s.command) ==> s.pid != r.ppid
  {
    var matching := Matching(table, names);
    var pids := set r | r in matching :: r.pid;
    KeepHolds(matching, (r: Row) => r.ppid !in pids);
    Keep(matching, (r: Row) => r.ppid !in pids)
  }

  /** Rows in which each is the parent of the next. */
  ghost predicate Lineage(matching: seq<Row>, c: seq<Row>) {
    c != [] && (forall k :: 0 <= k < |c| ==> c[k] in matching) && forall k :: 0 <= k < |c| - 1 ==> c[k + 1].ppid == c[k].pid
  }

  ghost predicate Cycle(matching: seq<Row>, c: seq<Row>) {
    Lineage(matching, c) && c[0].ppid == c[|c| - 1].pid
  }

  /** The process descends, through matching processes only, from one of the roots. */
  ghost predicate HasRoot(table: seq<Row>, names: string -> bool, row: Row) {
    exists c :: Lineage(Matching(table, names), c) && c[|c| - 1] == row && c[0] in BrowserRoots(table, names)
  }

  ghost predicate EveryMatchHasRoot(table: seq<Row>, names: string -> bool) {
    forall r :: r in table && names(r.command) ==> HasRoot(table, names, r)
  }

  ghost predicate PidsAreUnique(table: seq<Row>) {
    forall r, s :: r in table && s in table && r.pid == s.pid ==> r == s
  }

  ghost predicate Distinct(c: seq<Row>) {
    forall i, j :: 0 <= i < j < |c| ==> c[i] != c[j]
  }

  lemma ExtendLineage(matching: seq<Row>, c: seq<Row>, y: Row)
    requires Lineage(matching, c) && y in matching && y.pid == c[0].ppid
    ensures Lineage(matching, [y] + c)
    ensures Distinct(c) && y !in c ==> Distinct([y] + c)
  {
    var d := [y] + c;
    forall k | 0 <= k < |d| - 1 ensures d[k + 1].ppid == d[k].pid {
      assert d[k + 1] == c[k];
      if k > 0 {
        assert d[k] == c[k - 1] && c[(k - 1) + 1].ppid == c[k - 1].pid;
      }
    }
  }

  lemma CloseCycle(matching: seq<Row>, c: seq<Row>, y: Row) returns (cycle: seq<Row>)
    requires Lineage(matching, c) && y in c && y.pid == c[0].ppid
    ensures Cycle(matching, cycle)
  {
    var k :| 0 <= k < |c| && c[k] == y;
    cycle := c[..k + 1];
  }

  ghost predicate TopOfLineage(matching: seq<Row>, root: Row, row: Row) {
    exists c :: Lineage(matching, c) && c[0] == root && c[|c| - 1] == row
  }

  /** Climb from the top of a lineage without repeats: without a cycle, a parentless row is reached. */
  lemma {:induction false} Climb(matching: seq<Row>, c: seq<Row>) returns (root: Row)
    requires Lineage(matching, c) && Distinct(c)
    requires forall d :: !Cycle(matching, d)
    ensures TopOfLineage(matching, root, c[|c| - 1]) && forall r :: r in matching ==> r.pid != root.ppid
    decreases |matching| - |c|
  {
    if y :| y in matching && y.pid == c[0].ppid {
      if y in c {
        var cycle := CloseCycle(matching, c, y);
      } else {
        ExtendLineage(matching, c, y);
        DistinctRowsFit(matching, [y] + c);
        root := Climb(matching, [y] + c);
      }
    } else {
      root := c[0];
    }
  }

  lemma DistinctRowsFit(table: seq<Row>, c: seq<Row>)
    requires forall k :: 0 <= k < |c| ==> c[k] in table
    requires Distinct(c)
    ensures |c| <= |table|
  {
    CountDistinct(c);
    SetNotLarger(table);
    SubsetNotLarger((set r | r in c), (set r | r in table));
  }

  lemma {:induction false} CountDistinct(c: seq<Row>)
    requires Distinct(c)
    ensures |set r | r in c| == |c|
  {
    if c != [] {
      var n := |c| - 1;
      CountDistinct(c[..n]);
      assert c == c[..n] + [c[n]];
      assert (set r | r in c) == (set r | r in c[..n]) + {c[n]};
    }
  }

  lemma {:induction false} SetNotLarger(s: seq<Row>)
    ensures |set r | r in s| <= |s|
  {
    if s != [] {
      var n := |s| - 1;
      SetNotLarger(s[..n]);
      assert s == s[..n] + [s[n]];
      assert (set r | r in s) == (set r | r in s[..n]) + {s[n]};
    }
  }

  lemma SubsetNotLarger(small: set<Row>, large: set<Row>)
    requires small <= large
    ensures |small| <= |large|
  {
    assert large == small + (large - small);
  }

  lemma ParentInCycle(matching: seq<Row>, cycle: seq<Row>, row: Row) returns (parent: Row)
    requires Cycle(matching, cycle) && row in cycle
    ensures parent in cycle && parent in matching && parent.pid == row.ppid
  {
    var k :| 0 <= k < |cycle| && cycle[k] == row;
    parent := if k > 0 then cycle[k - 1] else cycle[|cycle| - 1];
    assert k > 0 ==> cycle[(k - 1) + 1].ppid == cycle[k - 1].pid;
  }

  /** Up a lineage from a cycle one never leaves the cycle. */
  lemma {:induction false} CycleTrapsLineage(matching: seq<Row>, cycle: seq<Row>, c: seq<Row>)
    requires PidsAreUnique(matching) && Cycle(matching, cycle) && Lineage(matching, c) && c[|c| - 1] in cycle
    ensures c[0] in cycle
  {
    var n := |c| - 1;
    if n > 0 {
      var parent := ParentInCycle(matching, cycle, c[n]);
      assert c[(n - 1) + 1].ppid == c[n - 1].pid;
      CycleTrapsLineage(matching, cycle, c[..n]);
    }
  }

  lemma CycleHasNoRoot(table: seq<Row>, names: string -> bool, cycle: seq<Row>)
    requires PidsAreUnique(table) && Cycle(Matching(table, names), cycle)
    ensures !HasRoot(table, names, cycle[0])
  {
    var matching := Matching(table, names);
    forall d: seq<Row> | Lineage(matching, d) && d[|d| - 1] == cycle[0] ensures d[0] !in BrowserRoots(table, names) {
      CycleTrapsLineage(matching, cycle, d);
      var parent := ParentInCycle(matching, cycle, d[0]);
    }
  }

  /** Every matching process descends from a returned root exactly when no matching processes parent each other
      in a cycle. */
  lemma RootsCoverIff(table: seq<Row>, names: string -> bool)
    requires PidsAreUnique(table)
    ensures EveryMatchHasRoot(table, names) <==> forall c :: !Cycle(Matching(table, names), c)
  {
    var matching := Matching(table, names);
    if c: seq<Row> :| Cycle(matching, c) {
      CycleHasNoRoot(table, names, c);
      assert c[0] in matching;
    } else {
      forall r | r in table && names(r.command) ensures HasRoot(table, names, r) {
        assert Lineage(matching, [r]);
        var root := Climb(matching, [r]);
        var c :| Lineage(matching, c) && c[0] == root && c[|c| - 1] == r;
        assert c[0] in matching;
      }
    }
  }

  /** Two matching processes that name each other as parent leave the worker without any root. */
  lemma MutualParentsHideRoots(names: string -> bool, command: string)
    requires names(command)
    ensures forall r :: r !in BrowserRoots([Row(1, 2, command), Row(2, 1, command)], names)
  {
    var table := [Row(1, 2, command), Row(2, 1, command)];
    var matching := Matching(table, names);
    assert table[0] in matching && table[1] in matching;
  }
}
