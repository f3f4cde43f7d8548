/**
 The canonical form whose digest seals a mission checkpoint: object keys are sorted by code unit, and the rows of
 arrays in which every row is an object with a string id are sorted by the collation key of the id; rows whose ids
 share a key keep their order, and so do other arrays.
 */
module CanonicalDigest {
  import opened Common
  import opened TextOrder

  /** The sort key that the locale compares a text by; different texts may share one. */
  type Collation = string -> string

  /** A nested value; an object lists its entries in insertion order. */
  datatype Value = Text(text: string) | Other(code: int) | Arr(items: seq<Value>) | Obj(entries: seq<(string, Value)>)

  /** The values filed under one key among the first `n` entries, in order. */
  function Group(p: seq<(string, Value)>, key: string, n: nat): (g: seq<Value>)
    requires n <= |p|
    ensures |g| <= n
  {
    if n == 0 then []
    else if p[n - 1].0 == key then Group(p, key, n - 1) + [p[n - 1].1]
    else Group(p, key, n - 1)
  }

  function All(p: seq<(string, Value)>, key: string): seq<Value> {
    Group(p, key, |p|)
  }

  // ---------------------------------------------------------------- stable sorting by key

  function Insert(p: seq<(string, Value)>, e: (string, Value)): seq<(string, Value)> {
    if p == [] || !StringLess(e.0, p[|p| - 1].0) then p + [e]
    else Insert(p[..|p| - 1], e) + [p[|p| - 1]]
  }

  function SortFirst(p: seq<(string, Value)>, n: nat): seq<(string, Value)>
    requires n <= |p|
  {
    if n == 0 then [] else Insert(SortFirst(p, n - 1), p[n - 1])
  }

  function Sort(p: seq<(string, Value)>): seq<(string, Value)> {
    SortFirst(p, |p|)
  }

  ghost predicate Sorted(p: seq<(string, Value)>) {
    forall i, j :: 0 <= i < j < |p| ==> !StringLess(p[j].0, p[i].0)
  }

  lemma {:induction false} InsertKeepsOrder(p: seq<(string, Value)>, e: (string, Value))
    requires Sorted(p)
    ensures Sorted(Insert(p, e)) && |Insert(p, e)| == |p| + 1
    ensures forall x :: x in Insert(p, e) <==> x in p || x == e
  {
    var n := |p|;
    if p == [] || !StringLess(e.0, p[n - 1].0) {
      var q := p + [e];
      forall i, j | 0 <= i < j < |q| ensures !StringLess(q[j].0, q[i].0) {
        if j == n && i < n - 1 {
          NotLessTransitive(p[i].0, p[n - 1].0, e.0);
        }
      }
    } else {
      var front, last := p[..n - 1], p[n - 1];
      InsertKeepsOrder(front, e);
      var q := Insert(front, e);
      var r := q + [last];
      StringIrreflexive(e.0);
      StringOrder(e.0, last.0);
      forall i, j | 0 <= i < j < |r| ensures !StringLess(r[j].0, r[i].0) {
        if j == n {
          assert r[i] in q;
        }
      }
      assert p == front + [last];
    }
  }

  function Only(e: (string, Value), key: string): seq<Value> {
    if e.0 == key then [e.1] else []
  }

  lemma GroupOfSnoc(p: seq<(string, Value)>, e: (string, Value), key: string)
    ensures All(p + [e], key) == All(p, key) + Only(e, key)
  {
    GroupPrefix(p, p + [e], key, |p|);
  }

  lemma {:induction false} InsertKeepsGroups(p: seq<(string, Value)>, e: (string, Value), key: string)
    ensures All(Insert(p, e), key) == All(p, key) + Only(e, key)
  {
    var n := |p|;
    if p == [] || !StringLess(e.0, p[n - 1].0) {
      GroupOfSnoc(p, e, key);
    } else {
      var front, last := p[..n - 1], p[n - 1];
      InsertKeepsGroups(front, e, key);
      GroupOfSnoc(Insert(front, e), last, key);
      assert p == front + [last];
      GroupOfSnoc(front, last, key);
      StringIrreflexive(e.0);
      assert Only(e, key) == [] || Only(last, key) == [];
    }
  }

  lemma NotLessTransitive(a: string, b: string, c: string)
    requires !StringLess(b, a) && !StringLess(c, b)
    ensures !StringLess(c, a)
  {
    StringOrder(a, b);
    StringOrder(b, c);
    if StringLess(c, a) {
      if a != b && b != c {
        StringTransitive(c, a, b);
      }
      StringOrder(c, b);
    }
  }

  lemma {:induction false} GroupPrefix(p: seq<(string, Value)>, q: seq<(string, Value)>, key: string, n: nat)
    requires p <= q && n <= |p|
    ensures Group(q, key, n) == Group(p, key, n)
  {
    if n > 0 {
      GroupPrefix(p, q, key, n - 1);
    }
  }

  lemma {:induction false} SortOrders(p: seq<(string, Value)>, n: nat)
    requires n <= |p|
    ensures Sorted(SortFirst(p, n)) && |SortFirst(p, n)| == n
    ensures forall x :: x in SortFirst(p, n) ==> exists i :: 0 <= i < n && p[i] == x
  {
    if n > 0 {
      SortOrders(p, n - 1);
      InsertKeepsOrder(SortFirst(p, n - 1), p[n - 1]);
    }
  }

  /** Sorting keeps, for every key, the values under it and their order. */
  lemma {:induction false} SortKeepsGroups(p: seq<(string, Value)>, n: nat, key: string)
    requires n <= |p|
    ensures All(SortFirst(p, n), key) == Group(p, key, n)
  {
    if n > 0 {
      SortKeepsGroups(p, n - 1, key);
      InsertKeepsGroups(SortFirst(p, n - 1), p[n - 1], key);
    }
  }

  lemma SortLaw(p: seq<(string, Value)>)
    ensures Sorted(Sort(p)) && |Sort(p)| == |p|
    ensures forall x :: x in Sort(p) ==> exists i :: 0 <= i < |p| && p[i] == x
    ensures forall key :: All(Sort(p), key) == All(p, key)
  {
    SortOrders(p, |p|);
    forall key ensures All(Sort(p), key) == All(p, key) {
      SortKeepsGroups(p, |p|, key);
    }
  }

  lemma GroupOfLast(p: seq<(string, Value)>, key: string)
    requires p != []
    ensures All(p, key) == if p[|p| - 1].0 == key then All(p[..|p| - 1], key) + [p[|p| - 1].1] else All(p[..|p| - 1], key)
  {
    GroupPrefix(p[..|p| - 1], p, key, |p| - 1);
  }

  /** A sorted list is determined by its groups. */
  lemma {:induction false} SortedByGroups(p: seq<(string, Value)>, q: seq<(string, Value)>)
    requires Sorted(p) && Sorted(q) && forall key :: All(p, key) == All(q, key)
    ensures p == q
    decreases |p| + |q|
  {
    if p != [] && q != [] {
      var a, b := p[|p| - 1], q[|q| - 1];
      SameLastKey(p, q);
      SameLastKey(q, p);
      StringOrder(a.0, b.0);
      GroupOfLast(p, a.0);
      GroupOfLast(q, a.0);
      assert All(p, a.0) == All(q, a.0) && All(p, a.0)[|All(p, a.0)| - 1] == a.1;
      var p', q' := p[..|p| - 1], q[..|q| - 1];
      forall key ensures All(p', key) == All(q', key) {
        GroupOfLast(p, key);
        GroupOfLast(q, key);
        assert All(p, key) == All(q, key);
        if key == a.0 {
          assert All(p', key) == All(p, key)[..|All(p, key)| - 1];
          assert All(q', key) == All(q, key)[..|All(q, key)| - 1];
        }
      }
      SortedByGroups(p', q');
      assert p == p' + [a] && q == q' + [b];
    } else {
      if p != [] {
        SomeGroup(p);
      }
      if q != [] {
        SomeGroup(q);
      }
    }
  }

  lemma SomeGroup(p: seq<(string, Value)>)
    requires p != []
    ensures All(p, p[|p| - 1].0) != []
  {
    GroupOfLast(p, p[|p| - 1].0);
  }

  /** The last key of a sorted list is not below any key of a list with the same groups. */
  lemma SameLastKey(p: seq<(string, Value)>, q: seq<(string, Value)>)
    requires Sorted(p) && p != [] && q != [] && forall key :: All(p, key) == All(q, key)
    ensures !StringLess(p[|p| - 1].0, q[|q| - 1].0)
  {
    var key := q[|q| - 1].0;
    assert All(q, key) != [];
    assert All(p, key) != [];
    var i := GroupMember(p, key, |p|);
    StringIrreflexive(key);
    assert i < |p| - 1 ==> !StringLess(p[|p| - 1].0, p[i].0);
  }

  lemma {:induction false} GroupMember(p: seq<(string, Value)>, key: string, n: nat) returns (i: nat)
    requires n <= |p| && Group(p, key, n) != []
    ensures i < n && p[i].0 == key
  {
    if p[n - 1].0 == key {
      i := n - 1;
    } else {
      i := GroupMember(p, key, n - 1);
    }
  }

  // ---------------------------------------------------------------- canonical form

  /** The string id of an object, if its one "id" entry is a string. */
  function IdOf(v: Value): Option<string> {
    if !v.Obj? then None
    else
      var g := All(v.entries, "id");
      if |g| == 1 && g[0].Text? then Some(g[0].text) else None
  }

  /** Every row is an object with a string id. */
  predicate StableRows(items: seq<Value>) {
    items != [] && forall i :: 0 <= i < |items| ==> IdOf(items[i]).Some?
  }

  /** The key a row is sorted by: the collation key of its id. */
  function RowKey(col: Collation, v: Value): Option<string> {
    if IdOf(v).Some? then Some(col(IdOf(v).value)) else None
  }

  function Keyed(col: Collation, items: seq<Value>): seq<(string, Value)>
    requires StableRows(items)
  {
    seq(|items|, i requires 0 <= i < |items| => (RowKey(col, items[i]).value, items[i]))
  }

  function Values(p: seq<(string, Value)>): seq<Value> {
    seq(|p|, i requires 0 <= i < |p| => p[i].1)
  }

  function Canon(col: Collation, v: Value): Value
    decreases v, 1
  {
    match v
    case Arr(items) =>
      var rows := CanonAll(col, v);
      Arr(if StableRows(rows) then Values(Sort(Keyed(col, rows))) else rows)
    case Obj(entries) => Obj(Sort(CanonEntries(col, v)))
    case _ => v
  }

  function CanonAll(col: Collation, v: Value): (rows: seq<Value>)
    requires v.Arr?
    ensures |rows| == |v.items|
    decreases v, 0
  {
    seq(|v.items|, i requires 0 <= i < |v.items| => Canon(col, v.items[i]))
  }

  function CanonEntries(col: Collation, v: Value): (p: seq<(string, Value)>)
    requires v.Obj?
    ensures |p| == |v.entries|
    decreases v, 0
  {
    seq(|v.entries|, i requires 0 <= i < |v.entries| => (v.entries[i].0, Canon(col, v.entries[i].1)))
  }

  // ---------------------------------------------------------------- when two values have one canonical form

  /** How many earlier entries carry the same key. */
  function Occurrence(p: seq<(string, Value)>, i: nat): nat
    requires i < |p|
  {
    |Group(p, p[i].0, i)|
  }

  /** Two entries stand for each other: same key, and the same place among the entries of that key. */
  predicate SamePlace(p: seq<(string, Value)>, i: int, q: seq<(string, Value)>, j: int) {
    0 <= i < |p| && 0 <= j < |q| && p[i].0 == q[j].0 && Occurrence(p, i) == Occurrence(q, j)
  }

  /** Objects, and arrays whose rows all carry a string id, are tables: their entries are found by key. */
  predicate Tabular(v: Value) {
    v.Obj? || (v.Arr? && StableRows(v.items))
  }

  function Entries(col: Collation, v: Value): (e: seq<(string, Value)>)
    requires Tabular(v)
    ensures forall i :: 0 <= i < |e| ==> e[i].1 < v
  {
    if v.Obj? then v.entries else Keyed(col, v.items)
  }

  /** Entry `i` of one table has an equivalent partner in the other, and the other way round. */
  ghost predicate Answered(col: Collation, a: Value, b: Value, i: int)
    requires Tabular(a) && Tabular(b) && 0 <= i < |Entries(col, a)|
    decreases a, 0
  {
    exists j :: SamePlace(Entries(col, a), i, Entries(col, b), j)
                && Equivalent(col, Entries(col, a)[i].1, Entries(col, b)[j].1)
  }

  ghost predicate AnsweredBack(col: Collation, a: Value, b: Value, j: int)
    requires Tabular(a) && Tabular(b) && 0 <= j < |Entries(col, b)|
    decreases a, 0
  {
    exists i :: SamePlace(Entries(col, a), i, Entries(col, b), j)
                && Equivalent(col, Entries(col, a)[i].1, Entries(col, b)[j].1)
  }

  ghost predicate TablesAgree(col: Collation, a: Value, b: Value)
    requires Tabular(a) && Tabular(b)
    decreases a, 1
  {
    && (forall i {:trigger Answered(col, a, b, i)} :: 0 <= i < |Entries(col, a)| ==> Answered(col, a, b, i))
    && (forall j {:trigger AnsweredBack(col, a, b, j)} :: 0 <= j < |Entries(col, b)| ==> AnsweredBack(col, a, b, j))
  }

  /**
   Two values mean the same: objects up to the order of keys, arrays of rows with string ids up to the order of
   rows whose ids have different collation keys, everything else exactly.
   */
  ghost predicate Equivalent(col: Collation, a: Value, b: Value)
    decreases a, 2
  {
    match a
    case Arr(s) =>
      && b.Arr? && (StableRows(s) <==> StableRows(b.items))
      && (if StableRows(s) then TablesAgree(col, a, b)
          else |s| == |b.items| && forall i :: 0 <= i < |s| ==> Equivalent(col, s[i], b.items[i]))
    case Obj(_) => b.Obj? && TablesAgree(col, a, b)
    case _ => a == b
  }

  lemma {:induction false} GroupGrows(p: seq<(string, Value)>, key: string, n: nat, m: nat)
    requires n <= m <= |p|
    ensures Group(p, key, n) <= Group(p, key, m)
    decreases m
  {
    if n < m {
      GroupGrows(p, key, n, m - 1);
    }
  }

  lemma OccurrenceLaw(p: seq<(string, Value)>, i: nat)
    requires i < |p|
    ensures Occurrence(p, i) < |All(p, p[i].0)| && All(p, p[i].0)[Occurrence(p, i)] == p[i].1
  {
    GroupGrows(p, p[i].0, i + 1, |p|);
  }

  lemma {:induction false} FindOccurrence(p: seq<(string, Value)>, key: string, n: nat, r: nat) returns (i: nat)
    requires n <= |p| && r < |Group(p, key, n)|
    ensures i < n && p[i].0 == key && Occurrence(p, i) == r
  {
    if p[n - 1].0 == key && r == |Group(p, key, n - 1)| {
      i := n - 1;
    } else {
      i := FindOccurrence(p, key, n - 1, r);
    }
  }

  predicate HasTwin(p: seq<(string, Value)>, i: int, q: seq<(string, Value)>) {
    exists j :: 0 <= j < |q| && SamePlace(p, i, q, j) && p[i].1 == q[j].1
  }

  ghost predicate Partnered(p: seq<(string, Value)>, q: seq<(string, Value)>) {
    (forall i :: 0 <= i < |p| ==> HasTwin(p, i, q)) && (forall j :: 0 <= j < |q| ==> HasTwin(q, j, p))
  }

  lemma TwinsFromGroups(p: seq<(string, Value)>, q: seq<(string, Value)>, i: nat)
    requires i < |p| && All(p, p[i].0) == All(q, p[i].0)
    ensures HasTwin(p, i, q)
  {
    OccurrenceLaw(p, i);
    var j := FindOccurrence(q, p[i].0, |q|, Occurrence(p, i));
    OccurrenceLaw(q, j);
    assert SamePlace(p, i, q, j);
  }

  lemma NotLonger(p: seq<(string, Value)>, q: seq<(string, Value)>, key: string)
    requires Partnered(p, q)
    ensures |All(p, key)| <= |All(q, key)|
  {
    if |All(p, key)| > 0 {
      SameGroupAt(p, q, key, |All(p, key)| - 1);
    }
  }

  lemma SameGroupAt(p: seq<(string, Value)>, q: seq<(string, Value)>, key: string, r: nat)
    requires Partnered(p, q) && r < |All(p, key)|
    ensures r < |All(q, key)| && All(p, key)[r] == All(q, key)[r]
  {
    var i := FindOccurrence(p, key, |p|, r);
    OccurrenceLaw(p, i);
    assert HasTwin(p, i, q);
    var j :| 0 <= j < |q| && SamePlace(p, i, q, j) && p[i].1 == q[j].1;
    OccurrenceLaw(q, j);
  }

  /** Two lists sort to the same list exactly when each entry of either has a twin in the other. */
  lemma SortsEqualIff(p: seq<(string, Value)>, q: seq<(string, Value)>)
    ensures Sort(p) == Sort(q) <==> Partnered(p, q)
  {
    SortLaw(p);
    SortLaw(q);
    if Sort(p) == Sort(q) {
      forall i | 0 <= i < |p| ensures HasTwin(p, i, q) {
        assert All(Sort(p), p[i].0) == All(Sort(q), p[i].0);
        TwinsFromGroups(p, q, i);
      }
      forall j | 0 <= j < |q| ensures HasTwin(q, j, p) {
        assert All(Sort(p), q[j].0) == All(Sort(q), q[j].0);
        TwinsFromGroups(q, p, j);
      }
    }
    if Partnered(p, q) {
      forall key ensures All(Sort(p), key) == All(Sort(q), key) {
        NotLonger(p, q, key);
        NotLonger(q, p, key);
        forall r | 0 <= r < |All(p, key)| ensures All(p, key)[r] == All(q, key)[r] {
          SameGroupAt(p, q, key, r);
        }
      }
      SortedByGroups(Sort(p), Sort(q));
    }
  }

  /** `p` lists the same keys as `e`, with canonical values. */
  ghost predicate CanonOf(col: Collation, p: seq<(string, Value)>, e: seq<(string, Value)>) {
    |p| == |e| && forall i :: 0 <= i < |e| ==> p[i] == (e[i].0, Canon(col, e[i].1))
  }

  lemma {:induction false} GroupOfCanon(
    col: Collation, p: seq<(string, Value)>, e: seq<(string, Value)>, key: string, n: nat)
    requires CanonOf(col, p, e) && n <= |e|
    ensures |Group(p, key, n)| == |Group(e, key, n)|
    ensures forall r :: 0 <= r < |Group(e, key, n)| ==> Group(p, key, n)[r] == Canon(col, Group(e, key, n)[r])
  {
    if n > 0 {
      GroupOfCanon(col, p, e, key, n - 1);
    }
  }

  lemma PlacesOfCanon(
    col: Collation, p: seq<(string, Value)>, e: seq<(string, Value)>, q: seq<(string, Value)>, f: seq<(string, Value)>, i: int, j: int)
    requires CanonOf(col, p, e) && CanonOf(col, q, f)
    ensures SamePlace(p, i, q, j) <==> SamePlace(e, i, f, j)
  {
    if 0 <= i < |e| {
      GroupOfCanon(col, p, e, e[i].0, i);
    }
    if 0 <= j < |f| {
      GroupOfCanon(col, q, f, f[j].0, j);
    }
  }

  lemma IdIsKept(col: Collation, v: Value)
    ensures IdOf(Canon(col, v)) == IdOf(v)
  {
    if v.Obj? {
      var p := CanonEntries(col, v);
      SortLaw(p);
      GroupOfCanon(col, p, v.entries, "id", |p|);
      assert All(Sort(p), "id") == All(p, "id");
    }
  }

  lemma RowsAreKept(col: Collation, v: Value)
    requires v.Arr?
    ensures StableRows(CanonAll(col, v)) <==> StableRows(v.items)
    ensures StableRows(v.items) ==> CanonOf(col, Keyed(col, CanonAll(col, v)), Keyed(col, v.items))
  {
    forall i | 0 <= i < |v.items| ensures IdOf(CanonAll(col, v)[i]) == IdOf(v.items[i]) {
      IdIsKept(col, v.items[i]);
    }
  }

  /** The canonical forms agree exactly when the values are equivalent. */
  ghost predicate Decided(col: Collation, a: Value, b: Value) {
    Canon(col, a) == Canon(col, b) <==> Equivalent(col, a, b)
  }

  ghost predicate AllDecided(col: Collation, e: seq<(string, Value)>, f: seq<(string, Value)>) {
    forall i, j {:trigger Decided(col, e[i].1, f[j].1)} :: 0 <= i < |e| && 0 <= j < |f| ==> Decided(col, e[i].1, f[j].1)
  }

  lemma TwinIff(col: Collation, p: seq<(string, Value)>, a: Value, q: seq<(string, Value)>, b: Value, i: nat)
    requires Tabular(a) && Tabular(b) && CanonOf(col, p, Entries(col, a)) && CanonOf(col, q, Entries(col, b))
    requires i < |Entries(col, a)| && AllDecided(col, Entries(col, a), Entries(col, b))
    ensures HasTwin(p, i, q) <==> Answered(col, a, b, i)
  {
    var e, f := Entries(col, a), Entries(col, b);
    if HasTwin(p, i, q) {
      var j :| 0 <= j < |q| && SamePlace(p, i, q, j) && p[i].1 == q[j].1;
      PlacesOfCanon(col, p, e, q, f, i, j);
      assert Decided(col, e[i].1, f[j].1);
    }
    if Answered(col, a, b, i) {
      var j :| SamePlace(e, i, f, j) && Equivalent(col, e[i].1, f[j].1);
      PlacesOfCanon(col, p, e, q, f, i, j);
      assert Decided(col, e[i].1, f[j].1);
    }
  }

  lemma TwinBackIff(col: Collation, p: seq<(string, Value)>, a: Value, q: seq<(string, Value)>, b: Value, j: nat)
    requires Tabular(a) && Tabular(b) && CanonOf(col, p, Entries(col, a)) && CanonOf(col, q, Entries(col, b))
    requires j < |Entries(col, b)| && AllDecided(col, Entries(col, a), Entries(col, b))
    ensures HasTwin(q, j, p) <==> AnsweredBack(col, a, b, j)
  {
    var e, f := Entries(col, a), Entries(col, b);
    if HasTwin(q, j, p) {
      var i :| 0 <= i < |p| && SamePlace(q, j, p, i) && q[j].1 == p[i].1;
      PlacesOfCanon(col, p, e, q, f, i, j);
      assert Decided(col, e[i].1, f[j].1) && SamePlace(e, i, f, j);
    }
    if AnsweredBack(col, a, b, j) {
      var i :| SamePlace(e, i, f, j) && Equivalent(col, e[i].1, f[j].1);
      PlacesOfCanon(col, p, e, q, f, i, j);
      assert Decided(col, e[i].1, f[j].1) && SamePlace(q, j, p, i);
    }
  }

  /** The sorted canonical entries of two tables are equal exactly when the tables agree. */
  lemma TablesDecide(col: Collation, p: seq<(string, Value)>, a: Value, q: seq<(string, Value)>, b: Value)
    requires Tabular(a) && Tabular(b) && CanonOf(col, p, Entries(col, a)) && CanonOf(col, q, Entries(col, b))
    requires AllDecided(col, Entries(col, a), Entries(col, b))
    ensures Sort(p) == Sort(q) <==> TablesAgree(col, a, b)
  {
    SortsEqualIff(p, q);
    forall i | 0 <= i < |p| ensures HasTwin(p, i, q) <==> Answered(col, a, b, i) {
      TwinIff(col, p, a, q, b, i);
    }
    forall j | 0 <= j < |q| ensures HasTwin(q, j, p) <==> AnsweredBack(col, a, b, j) {
      TwinBackIff(col, p, a, q, b, j);
    }
  }

  /** Pairs filed under the ids of their values are determined by the values. */
  lemma ValuesDecide(col: Collation, p: seq<(string, Value)>, q: seq<(string, Value)>)
    requires forall x :: x in p || x in q ==> RowKey(col, x.1) == Some(x.0)
    ensures Values(p) == Values(q) <==> p == q
  {
    if Values(p) == Values(q) {
      assert |Values(p)| == |p| && |Values(q)| == |q|;
      forall i | 0 <= i < |p| ensures p[i] == q[i] {
        assert p[i] in p && q[i] in q && Values(p)[i] == Values(q)[i];
      }
    }
  }

  lemma SortedRowsHaveIds(col: Collation, rows: seq<Value>)
    requires StableRows(rows)
    ensures forall x :: x in Sort(Keyed(col, rows)) ==> RowKey(col, x.1) == Some(x.0)
    ensures StableRows(Values(Sort(Keyed(col, rows)))) && |Sort(Keyed(col, rows))| == |rows|
  {
    var p := Keyed(col, rows);
    SortLaw(p);
    forall x | x in Sort(p) ensures RowKey(col, x.1) == Some(x.0) {
      var i :| 0 <= i < |p| && p[i] == x;
    }
    forall i | 0 <= i < |Sort(p)| ensures IdOf(Values(Sort(p))[i]).Some? {
      assert Sort(p)[i] in Sort(p);
    }
  }

  ghost predicate ItemsDecided(col: Collation, a: Value, b: Value)
    requires a.Arr? && b.Arr?
  {
    forall i, j {:trigger Decided(col, a.items[i], b.items[j])} ::
      0 <= i < |a.items| && 0 <= j < |b.items| ==> Decided(col, a.items[i], b.items[j])
  }

  lemma ArraysDecide(col: Collation, a: Value, b: Value)
    requires a.Arr? && b.Arr? && ItemsDecided(col, a, b)
    ensures Decided(col, a, b)
  {
    RowsAreKept(col, a);
    RowsAreKept(col, b);
    var s, t := CanonAll(col, a), CanonAll(col, b);
    if StableRows(s) {
      SortedRowsHaveIds(col, s);
    }
    if StableRows(t) {
      SortedRowsHaveIds(col, t);
    }
    if StableRows(s) && StableRows(t) {
      StableArraysDecide(col, a, b);
    } else if !StableRows(s) && !StableRows(t) {
      PlainArraysDecide(col, a, b);
    }
  }

  lemma StableArraysDecide(col: Collation, a: Value, b: Value)
    requires a.Arr? && b.Arr? && StableRows(CanonAll(col, a)) && StableRows(CanonAll(col, b)) && ItemsDecided(col, a, b)
    ensures Decided(col, a, b)
  {
    RowsAreKept(col, a);
    RowsAreKept(col, b);
    var p, q := Keyed(col, CanonAll(col, a)), Keyed(col, CanonAll(col, b));
    SortedRowsHaveIds(col, CanonAll(col, a));
    SortedRowsHaveIds(col, CanonAll(col, b));
    ValuesDecide(col, Sort(p), Sort(q));
    forall i, j | 0 <= i < |a.items| && 0 <= j < |b.items|
      ensures Decided(col, Keyed(col, a.items)[i].1, Keyed(col, b.items)[j].1) {
      assert Decided(col, a.items[i], b.items[j]);
    }
    TablesDecide(col, p, a, q, b);
    assert Canon(col, a) == Arr(Values(Sort(p))) && Canon(col, b) == Arr(Values(Sort(q)));
  }

  lemma PlainArraysDecide(col: Collation, a: Value, b: Value)
    requires a.Arr? && b.Arr? && ItemsDecided(col, a, b)
    requires !StableRows(CanonAll(col, a)) && !StableRows(CanonAll(col, b))
    ensures Decided(col, a, b)
  {
    RowsAreKept(col, a);
    RowsAreKept(col, b);
    var s, t := CanonAll(col, a), CanonAll(col, b);
    assert Canon(col, a) == Arr(s) && Canon(col, b) == Arr(t);
    if Equivalent(col, a, b) {
      forall i | 0 <= i < |s| ensures s[i] == t[i] {
        assert Decided(col, a.items[i], b.items[i]) && Equivalent(col, a.items[i], b.items[i]);
      }
      assert s == t;
    }
    if s == t {
      forall i | 0 <= i < |a.items| ensures Equivalent(col, a.items[i], b.items[i]) {
        assert Decided(col, a.items[i], b.items[i]) && s[i] == t[i];
      }
    }
  }

  lemma ObjectsDecide(col: Collation, a: Value, b: Value)
    requires a.Obj? && b.Obj? && AllDecided(col, a.entries, b.entries)
    ensures Decided(col, a, b)
  {
    var p, q := CanonEntries(col, a), CanonEntries(col, b);
    TablesDecide(col, p, a, q, b);
    SortLaw(p);
    SortLaw(q);
    assert Canon(col, a) == Obj(Sort(p)) && Canon(col, b) == Obj(Sort(q));
  }

  /** Two values have the same canonical form exactly when they mean the same. */
  lemma {:induction false} CanonDecides(col: Collation, a: Value, b: Value)
    ensures Canon(col, a) == Canon(col, b) <==> Equivalent(col, a, b)
    decreases a
  {
    if a.Arr? && b.Arr? {
      forall i, j | 0 <= i < |a.items| && 0 <= j < |b.items| ensures Decided(col, a.items[i], b.items[j]) {
        CanonDecides(col, a.items[i], b.items[j]);
      }
      ArraysDecide(col, a, b);
    } else if a.Obj? && b.Obj? {
      forall i, j | 0 <= i < |a.entries| && 0 <= j < |b.entries| ensures Decided(col, a.entries[i].1, b.entries[j].1) {
        CanonDecides(col, a.entries[i].1, b.entries[j].1);
      }
      ObjectsDecide(col, a, b);
    }
  }

  /** With a hash that never collides, two projections get the same digest exactly when they mean the same. */
  lemma DigestDecides(col: Collation, hash: Value -> int, a: Value, b: Value)
    requires forall x, y :: hash(x) == hash(y) ==> x == y
    ensures hash(Canon(col, a)) == hash(Canon(col, b)) <==> Equivalent(col, a, b)
  {
    CanonDecides(col, a, b);
  }

  // ---------------------------------------------------------------- swapping two elements of an array

  function Swapped<T>(s: seq<T>, i: nat, j: nat): seq<T>
    requires i < j < |s|
  {
    s[i := s[j]][j := s[i]]
  }

  lemma {:induction false} GroupOfConcat(p: seq<(string, Value)>, q: seq<(string, Value)>, key: string, n: nat)
    requires n <= |q|
    ensures Group(p + q, key, |p| + n) == All(p, key) + Group(q, key, n)
  {
    if n == 0 {
      GroupPrefix(p, p + q, key, |p|);
    } else {
      GroupOfConcat(p, q, key, n - 1);
      assert (p + q)[|p| + n - 1] == q[n - 1];
    }
  }

  lemma AllOfConcat(p: seq<(string, Value)>, q: seq<(string, Value)>, key: string)
    ensures All(p + q, key) == All(p, key) + All(q, key)
  {
    GroupOfConcat(p, q, key, |q|);
  }

  /** The values of a key before `x`, between the two, and after `y`. */
  lemma AllAround(a: seq<(string, Value)>, x: (string, Value), m: seq<(string, Value)>, y: (string, Value), b: seq<(string, Value)>, key: string)
    ensures All(a + [x] + m + [y] + b, key) == All(a, key) + (Only(x, key) + All(m, key) + Only(y, key)) + All(b, key)
  {
    AllOfConcat(a + [x] + m + [y], b, key);
    GroupOfSnoc(a + [x] + m, y, key);
    AllOfConcat(a + [x], m, key);
    GroupOfSnoc(a, x, key);
  }

  /** A value can be moved from the front of a list to its end unnoticed exactly when the list repeats it. */
  lemma {:induction false} RotationIff(v: Value, m: seq<Value>)
    ensures [v] + m == m + [v] <==> forall r :: 0 <= r < |m| ==> m[r] == v
  {
    if [v] + m == m + [v] {
      forall r | 0 <= r < |m| ensures m[r] == v {
        RotationAt(v, m, r);
      }
    }
  }

  lemma {:induction false} RotationAt(v: Value, m: seq<Value>, r: nat)
    requires [v] + m == m + [v] && r < |m|
    ensures m[r] == v
  {
    assert ([v] + m)[r] == (m + [v])[r];
    if r > 0 {
      RotationAt(v, m, r - 1);
    }
  }

  /** Every entry of `m` under the key of `x` is `x`. */
  predicate OnlyCopies(m: seq<(string, Value)>, x: (string, Value)) {
    forall k :: 0 <= k < |m| && m[k].0 == x.0 ==> m[k] == x
  }

  lemma CopiesByGroup(m: seq<(string, Value)>, x: (string, Value))
    ensures OnlyCopies(m, x) <==> forall r :: 0 <= r < |All(m, x.0)| ==> All(m, x.0)[r] == x.1
  {
    if OnlyCopies(m, x) {
      forall r | 0 <= r < |All(m, x.0)| ensures All(m, x.0)[r] == x.1 {
        var i := FindOccurrence(m, x.0, |m|, r);
        OccurrenceLaw(m, i);
      }
    } else {
      var k :| 0 <= k < |m| && m[k].0 == x.0 && m[k] != x;
      OccurrenceLaw(m, k);
    }
  }

  /** When the groups of a key survive the swap of `x` and `y` around `m`. */
  lemma MiddleIff(x: (string, Value), m: seq<(string, Value)>, y: (string, Value))
    ensures (forall key :: Only(x, key) + All(m, key) + Only(y, key) == Only(y, key) + All(m, key) + Only(x, key))
      <==> x == y || (x.0 != y.0 && OnlyCopies(m, x) && OnlyCopies(m, y))
  {
    CopiesByGroup(m, x);
    CopiesByGroup(m, y);
    RotationIff(x.1, All(m, x.0));
    RotationIff(y.1, All(m, y.0));
    var mx, my := All(m, x.0), All(m, y.0);
    if x.0 == y.0 {
      assert ([x.1] + mx + [y.1])[0] == x.1 && ([y.1] + mx + [x.1])[0] == y.1;
      assert Only(x, x.0) + mx + Only(y, x.0) == [x.1] + mx + [y.1];
    } else {
      assert [x.1] + mx + [] == [x.1] + mx && [] + mx + [x.1] == mx + [x.1];
      assert [y.1] + my + [] == [y.1] + my && [] + my + [y.1] == my + [y.1];
      assert Only(x, x.0) == [x.1] && Only(y, x.0) == [] && Only(x, y.0) == [] && Only(y, y.0) == [y.1];
    }
    forall key | key != x.0 && key != y.0
      ensures Only(x, key) + All(m, key) + Only(y, key) == Only(y, key) + All(m, key) + Only(x, key) {
    }
  }

  /** Swapping entries keeps every group exactly when the two are equal, or have different keys and everything between
      them under either key repeats the one that moves past it. */
  lemma SwapKeepsGroupsIff(p: seq<(string, Value)>, i: nat, j: nat)
    requires i < j < |p|
    ensures (forall key :: All(p, key) == All(Swapped(p, i, j), key))
      <==> p[i] == p[j] || (p[i].0 != p[j].0 && OnlyCopies(p[i + 1..j], p[i]) && OnlyCopies(p[i + 1..j], p[j]))
  {
    var a, x, m, y, b := p[..i], p[i], p[i + 1..j], p[j], p[j + 1..];
    assert p == a + [x] + m + [y] + b;
    assert Swapped(p, i, j) == a + [y] + m + [x] + b;
    forall key ensures All(p, key) == All(Swapped(p, i, j), key) <==>
      Only(x, key) + All(m, key) + Only(y, key) == Only(y, key) + All(m, key) + Only(x, key)
    {
      AllAround(a, x, m, y, b, key);
      AllAround(a, y, m, x, b, key);
      SameMiddle(All(a, key), Only(x, key) + All(m, key) + Only(y, key), Only(y, key) + All(m, key) + Only(x, key), All(b, key));
    }
    MiddleIff(x, m, y);
  }

  lemma SameMiddle(a: seq<Value>, m: seq<Value>, n: seq<Value>, b: seq<Value>)
    requires |m| == |n|
    ensures a + m + b == a + n + b <==> m == n
  {
    if a + m + b == a + n + b {
      assert m == (a + m + b)[|a|..|a| + |m|] && n == (a + n + b)[|a|..|a| + |n|];
    }
  }

  lemma SortsEqualByGroups(p: seq<(string, Value)>, q: seq<(string, Value)>)
    ensures Sort(p) == Sort(q) <==> forall key :: All(p, key) == All(q, key)
  {
    SortLaw(p);
    SortLaw(q);
    if Sort(p) == Sort(q) {
      forall key ensures All(p, key) == All(q, key) {
        assert All(Sort(p), key) == All(p, key) && All(Sort(q), key) == All(q, key);
      }
    } else if forall key :: All(p, key) == All(q, key) {
      SortedByGroups(Sort(p), Sort(q));
    }
  }

  /** Rows of a stable array, swapped: their canonical array is the same exactly when the groups survive. */
  lemma StableSwap(col: Collation, rows: seq<Value>, i: nat, j: nat)
    requires StableRows(rows) && i < j < |rows|
    ensures StableRows(Swapped(rows, i, j)) && Keyed(col, Swapped(rows, i, j)) == Swapped(Keyed(col, rows), i, j)
    ensures Values(Sort(Keyed(col, rows))) == Values(Sort(Keyed(col, Swapped(rows, i, j)))) <==>
      forall key :: All(Keyed(col, rows), key) == All(Swapped(Keyed(col, rows), i, j), key)
  {
    var other := Swapped(rows, i, j);
    SortedRowsHaveIds(col, rows);
    SortedRowsHaveIds(col, other);
    ValuesDecide(col, Sort(Keyed(col, rows)), Sort(Keyed(col, other)));
    SortsEqualByGroups(Keyed(col, rows), Keyed(col, other));
  }

  /** Between the two positions, rows whose id shares the collation key of row `x` mean the same as that row. */
  ghost predicate RepeatsBetween(col: Collation, items: seq<Value>, i: nat, j: nat, x: nat)
    requires i < j < |items| && x < |items|
  {
    forall k :: i < k < j && RowKey(col, items[k]) == RowKey(col, items[x]) ==> Equivalent(col, items[k], items[x])
  }

  ghost predicate NothingBetween(col: Collation, items: seq<Value>, i: nat, j: nat)
    requires i < j < |items|
  {
    RepeatsBetween(col, items, i, j, i) && RepeatsBetween(col, items, i, j, j)
  }

  /** Swapping any two elements of an array is invisible exactly when they mean the same, or when all rows have string
      ids, the collation keys of the two ids differ, and every row between them under either key repeats that one. */
  lemma SwapIsInvisibleIff(col: Collation, items: seq<Value>, i: nat, j: nat)
    requires i < j < |items|
    ensures Canon(col, Arr(items)) == Canon(col, Arr(Swapped(items, i, j))) <==>
      || Equivalent(col, items[i], items[j])
      || (StableRows(items) && RowKey(col, items[i]) != RowKey(col, items[j]) && NothingBetween(col, items, i, j))
  {
    var a, b := Arr(items), Arr(Swapped(items, i, j));
    var rows := CanonAll(col, a);
    assert CanonAll(col, b) == Swapped(rows, i, j);
    RowsAreKept(col, a);
    CanonDecides(col, items[i], items[j]);
    if StableRows(rows) {
      StableSwap(col, rows, i, j);
      SwapKeepsGroupsIff(Keyed(col, rows), i, j);
      BetweenIff(col, items, i, j);
      IdIsKept(col, items[i]);
      IdIsKept(col, items[j]);
    } else {
      PlainSwap(rows, i, j);
    }
  }

  lemma PlainSwap(rows: seq<Value>, i: nat, j: nat)
    requires i < j < |rows| && !StableRows(rows)
    ensures !StableRows(Swapped(rows, i, j))
    ensures rows == Swapped(rows, i, j) <==> rows[i] == rows[j]
  {
    var other := Swapped(rows, i, j);
    var k :| 0 <= k < |rows| && IdOf(rows[k]).None?;
    var k' := if k == i then j else if k == j then i else k;
    assert other[k'] == rows[k];
    assert other[i] == rows[j];
  }

  lemma KeysOfRows(col: Collation, items: seq<Value>, k: nat, l: nat)
    requires StableRows(items) && StableRows(CanonAll(col, Arr(items))) && k < |items| && l < |items|
    ensures var p := Keyed(col, CanonAll(col, Arr(items)));
      && (p[k].0 == p[l].0 <==> RowKey(col, items[k]) == RowKey(col, items[l]))
      && (p[k] == p[l] <==> Equivalent(col, items[k], items[l]))
  {
    IdIsKept(col, items[k]);
    IdIsKept(col, items[l]);
    CanonDecides(col, items[k], items[l]);
  }

  lemma CopiesBetweenIff(col: Collation, items: seq<Value>, i: nat, j: nat, x: nat)
    requires i < j < |items| && x < |items| && StableRows(items) && StableRows(CanonAll(col, Arr(items)))
    ensures var p := Keyed(col, CanonAll(col, Arr(items)));
      OnlyCopies(p[i + 1..j], p[x]) <==> RepeatsBetween(col, items, i, j, x)
  {
    var p := Keyed(col, CanonAll(col, Arr(items)));
    var m := p[i + 1..j];
    forall k | i < k < j ensures m[k - i - 1] == p[k] {
      assert m[k - i - 1] == p[k];
    }
    forall k | i < k < j
      ensures (m[k - i - 1].0 == p[x].0 ==> m[k - i - 1] == p[x])
        <==> (RowKey(col, items[k]) == RowKey(col, items[x]) ==> Equivalent(col, items[k], items[x])) {
      KeysOfRows(col, items, k, x);
    }
    if RepeatsBetween(col, items, i, j, x) {
      forall k | 0 <= k < |m| && m[k].0 == p[x].0 ensures m[k] == p[x] {
        assert m[(k + i + 1) - i - 1] == m[k];
      }
    }
  }

  /** What lies between, in terms of canonical rows and in terms of the items themselves. */
  lemma BetweenIff(col: Collation, items: seq<Value>, i: nat, j: nat)
    requires i < j < |items| && StableRows(items) && StableRows(CanonAll(col, Arr(items)))
    ensures var p := Keyed(col, CanonAll(col, Arr(items)));
      OnlyCopies(p[i + 1..j], p[i]) && OnlyCopies(p[i + 1..j], p[j]) <==> NothingBetween(col, items, i, j)
  {
    CopiesBetweenIff(col, items, i, j, i);
    CopiesBetweenIff(col, items, i, j, j);
  }

  // ---------------------------------------------------------------- reordering rows with different ids

  ghost predicate IsPermutation(perm: seq<nat>, n: nat) {
    && |perm| == n && (forall k :: 0 <= k < n ==> perm[k] < n)
    && (forall k, l :: 0 <= k < l < n ==> perm[k] != perm[l])
    && (forall i :: 0 <= i < n ==> i in perm)
  }

  function Reordered(items: seq<Value>, perm: seq<nat>): (r: seq<Value>)
    requires forall k :: 0 <= k < |perm| ==> perm[k] < |items|
  {
    seq(|perm|, k requires 0 <= k < |perm| => items[perm[k]])
  }

  predicate DistinctIds(items: seq<Value>) {
    forall i, j :: 0 <= i < j < |items| ==> IdOf(items[i]) != IdOf(items[j])
  }

  /** No two ids share a collation key. */
  predicate DistinctKeys(col: Collation, items: seq<Value>) {
    forall i, j :: 0 <= i < j < |items| ==> RowKey(col, items[i]) != RowKey(col, items[j])
  }

  ghost predicate OrderIsInvisible(col: Collation, items: seq<Value>) {
    forall perm {:trigger IsPermutation(perm, |items|)} ::
      IsPermutation(perm, |items|) ==> Canon(col, Arr(Reordered(items, perm))) == Canon(col, Arr(items))
  }

  /** In a list without repeated keys every entry is the first of its key. */
  lemma {:induction false} FirstOfItsKey(p: seq<(string, Value)>, key: string, n: nat)
    requires n <= |p| && forall i :: 0 <= i < n ==> p[i].0 != key
    ensures Group(p, key, n) == []
  {
    if n > 0 {
      FirstOfItsKey(p, key, n - 1);
    }
  }

  ghost predicate KeysDiffer(p: seq<(string, Value)>) {
    forall i, j :: 0 <= i < j < |p| ==> p[i].0 != p[j].0
  }

  lemma TwinByEquality(p: seq<(string, Value)>, q: seq<(string, Value)>, i: nat, j: nat)
    requires KeysDiffer(p) && KeysDiffer(q) && i < |p| && j < |q| && p[i] == q[j]
    ensures HasTwin(p, i, q)
  {
    FirstOfItsKey(p, p[i].0, i);
    FirstOfItsKey(q, q[j].0, j);
    assert SamePlace(p, i, q, j);
  }

  /** Two lists without repeated keys that hold the same entries sort to the same list. */
  lemma SameEntriesSortAlike(p: seq<(string, Value)>, q: seq<(string, Value)>)
    requires KeysDiffer(p) && KeysDiffer(q) && forall x :: x in p <==> x in q
    ensures Sort(p) == Sort(q)
  {
    forall i | 0 <= i < |p| ensures HasTwin(p, i, q) {
      assert p[i] in q;
      var j :| 0 <= j < |q| && q[j] == p[i];
      TwinByEquality(p, q, i, j);
    }
    forall j | 0 <= j < |q| ensures HasTwin(q, j, p) {
      assert q[j] in p;
      var i :| 0 <= i < |p| && p[i] == q[j];
      TwinByEquality(q, p, j, i);
    }
    SortsEqualIff(p, q);
  }

  lemma DistinctRowsReorder(col: Collation, items: seq<Value>, perm: seq<nat>)
    requires StableRows(items) && DistinctKeys(col, items) && IsPermutation(perm, |items|)
    ensures Canon(col, Arr(Reordered(items, perm))) == Canon(col, Arr(items))
  {
    var a, b := Arr(items), Arr(Reordered(items, perm));
    RowsAreKept(col, a);
    RowsAreKept(col, b);
    var p, q := Keyed(col, CanonAll(col, a)), Keyed(col, CanonAll(col, b));
    forall k | 0 <= k < |items| ensures p[k] == (RowKey(col, items[k]).value, Canon(col, items[k])) {
      IdIsKept(col, items[k]);
    }
    forall k | 0 <= k < |items| ensures q[k] == p[perm[k]] {
      IdIsKept(col, b.items[k]);
    }
    forall i, j | 0 <= i < j < |q| ensures q[i].0 != q[j].0 {
      assert perm[i] != perm[j];
      assert p[perm[i]].0 != p[perm[j]].0;
    }
    forall i | 0 <= i < |p| ensures p[i] in q {
      assert i in perm;
      var k :| 0 <= k < |perm| && perm[k] == i;
      assert q[k] == p[i];
    }
    SameEntriesSortAlike(p, q);
  }

  /** The permutation that swaps two positions. */
  lemma SwapAsPermutation(items: seq<Value>, i: nat, j: nat) returns (perm: seq<nat>)
    requires i < j < |items|
    ensures IsPermutation(perm, |items|) && Reordered(items, perm) == Swapped(items, i, j)
  {
    perm := seq(|items|, k => if k == i then j else if k == j then i else k);
    forall k | 0 <= k < |items| ensures k in perm {
      assert perm[if k == i then j else if k == j then i else k] == k;
    }
  }

  lemma TiedRowsAreSeen(col: Collation, items: seq<Value>, i: nat, j: nat)
    requires StableRows(items) && i < j < |items|
    requires IdOf(items[i]) != IdOf(items[j]) && RowKey(col, items[i]) == RowKey(col, items[j])
    ensures Canon(col, Arr(items)) != Canon(col, Arr(Swapped(items, i, j)))
  {
    SwapIsInvisibleIff(col, items, i, j);
    CanonDecides(col, items[i], items[j]);
    IdIsKept(col, items[i]);
    IdIsKept(col, items[j]);
  }

  /** Rows with different ids can be listed in any order unnoticed exactly when no two of the ids share a collation key. */
  lemma AnyOrderIff(col: Collation, items: seq<Value>)
    requires StableRows(items) && DistinctIds(items)
    ensures OrderIsInvisible(col, items) <==> DistinctKeys(col, items)
  {
    if DistinctKeys(col, items) {
      forall perm | IsPermutation(perm, |items|)
        ensures Canon(col, Arr(Reordered(items, perm))) == Canon(col, Arr(items)) {
        DistinctRowsReorder(col, items, perm);
      }
    } else {
      var i, j :| 0 <= i < j < |items| && RowKey(col, items[i]) == RowKey(col, items[j]);
      var perm := SwapAsPermutation(items, i, j);
      TiedRowsAreSeen(col, items, i, j);
    }
  }

  function RowOf(id: string): Value {
    Obj([("id", Text(id))])
  }

  /** An accented letter as one character, and as a letter with a combining accent: canonically equivalent texts. */
  const COMPOSED: string := [0xE9 as char]
  const DECOMPOSED: string := ['e', 0x301 as char]

  lemma RowHasId(id: string)
    ensures IdOf(RowOf(id)) == Some(id)
  {
    assert Group(RowOf(id).entries, "id", 0) == [];
    assert Group(RowOf(id).entries, "id", 1) == [Text(id)];
  }

  /** Wherever the locale compares these two ids as equal, two rows with them change the canonical form when swapped. */
  lemma TiedIdsAreNotReordered(col: Collation)
    requires col(COMPOSED) == col(DECOMPOSED)
    ensures var rows := [RowOf(COMPOSED), RowOf(DECOMPOSED)];
      && StableRows(rows) && DistinctIds(rows)
      && Canon(col, Arr(rows)) != Canon(col, Arr([RowOf(DECOMPOSED), RowOf(COMPOSED)]))
  {
    var rows := [RowOf(COMPOSED), RowOf(DECOMPOSED)];
    RowHasId(COMPOSED);
    RowHasId(DECOMPOSED);
    assert |COMPOSED| == 1 && |DECOMPOSED| == 2;
    assert Swapped(rows, 0, 1) == [RowOf(DECOMPOSED), RowOf(COMPOSED)];
    TiedRowsAreSeen(col, rows, 0, 1);
  }

  // ---------------------------------------------------------------- the form itself

  /** Sorting a sorted list changes nothing. */
  lemma SortOfSorted(p: seq<(string, Value)>)
    requires Sorted(p)
    ensures Sort(p) == p
  {
    SortLaw(p);
    SortedByGroups(Sort(p), p);
  }

  /** Canonical parts, filed under their keys and sorted, are filed and sorted already. */
  lemma FiledAgain(col: Collation, rows: seq<Value>)
    requires StableRows(rows)
    ensures StableRows(Values(Sort(Keyed(col, rows)))) && Keyed(col, Values(Sort(Keyed(col, rows)))) == Sort(Keyed(col, rows))
  {
    SortedRowsHaveIds(col, rows);
    var p := Sort(Keyed(col, rows));
    var again := Keyed(col, Values(p));
    assert |again| == |p|;
    forall i | 0 <= i < |p| ensures again[i] == p[i] {
      assert p[i] in p;
      assert RowKey(col, p[i].1) == Some(p[i].0);
    }
  }

  /** Each canonical part of a value is among the parts of its canonical form, which has no others. */
  lemma PartsOfCanon(col: Collation, v: Value, part: Value)
    requires v.Arr? && part in Canon(col, v).items
    ensures exists i :: 0 <= i < |v.items| && part == Canon(col, v.items[i])
  {
    var rows := CanonAll(col, v);
    if StableRows(rows) {
      var p := Keyed(col, rows);
      SortLaw(p);
      var j :| 0 <= j < |Sort(p)| && Values(Sort(p))[j] == part;
      assert Sort(p)[j] in Sort(p);
      var i :| 0 <= i < |p| && p[i] == Sort(p)[j];
      assert rows[i] == part;
    } else {
      var i :| 0 <= i < |rows| && rows[i] == part;
    }
  }

  lemma FixedArray(col: Collation, v: Value)
    requires v.Arr? && forall i :: 0 <= i < |v.items| ==> Canon(col, Canon(col, v.items[i])) == Canon(col, v.items[i])
    ensures Canon(col, Canon(col, v)) == Canon(col, v)
  {
    var c := Canon(col, v);
    forall k | 0 <= k < |c.items| ensures CanonAll(col, c)[k] == c.items[k] {
      PartsOfCanon(col, v, c.items[k]);
    }
    assert CanonAll(col, c) == c.items;
    var rows := CanonAll(col, v);
    if StableRows(rows) {
      FiledAgain(col, rows);
      SortLaw(Keyed(col, rows));
      SortOfSorted(Sort(Keyed(col, rows)));
    }
  }

  lemma FixedObject(col: Collation, v: Value)
    requires v.Obj? && forall i :: 0 <= i < |v.entries| ==> Canon(col, Canon(col, v.entries[i].1)) == Canon(col, v.entries[i].1)
    ensures Canon(col, Canon(col, v)) == Canon(col, v)
  {
    var c := Canon(col, v);
    var p := CanonEntries(col, v);
    SortLaw(p);
    forall k | 0 <= k < |c.entries| ensures CanonEntries(col, c)[k] == c.entries[k] {
      assert c.entries[k] in Sort(p);
      var i :| 0 <= i < |p| && p[i] == c.entries[k];
    }
    assert CanonEntries(col, c) == c.entries;
    SortOfSorted(Sort(p));
  }

  /** The canonical form of a value means the same as the value, and is its own canonical form. */
  lemma {:induction false} CanonIsFixed(col: Collation, v: Value)
    ensures Canon(col, Canon(col, v)) == Canon(col, v)
    ensures Equivalent(col, Canon(col, v), v)
    decreases v
  {
    match v
    case Arr(items) =>
      forall i | 0 <= i < |items| ensures Canon(col, Canon(col, items[i])) == Canon(col, items[i]) {
        CanonIsFixed(col, items[i]);
      }
      FixedArray(col, v);
      CanonDecides(col, Canon(col, v), v);
    case Obj(entries) =>
      forall i | 0 <= i < |entries| ensures Canon(col, Canon(col, entries[i].1)) == Canon(col, entries[i].1) {
        CanonIsFixed(col, entries[i].1);
      }
      FixedObject(col, v);
      CanonDecides(col, Canon(col, v), v);
    case _ =>
      CanonDecides(col, Canon(col, v), v);
  }

  /** In the canonical form the keys of an object stand in code-unit order, and the rows of an array whose rows all have
      string ids stand in the order of the collation keys of their ids. */
  lemma CanonStandsInOrder(col: Collation, v: Value)
    ensures v.Obj? ==> Canon(col, v).Obj? && Sorted(Canon(col, v).entries)
    ensures v.Arr? && StableRows(v.items) ==>
      && Canon(col, v).Arr? && StableRows(Canon(col, v).items)
      && forall i, j :: 0 <= i < j < |Canon(col, v).items| ==>
           !StringLess(RowKey(col, Canon(col, v).items[j]).value, RowKey(col, Canon(col, v).items[i]).value)
  {
    if v.Obj? {
      SortLaw(CanonEntries(col, v));
    } else if v.Arr? && StableRows(v.items) {
      RowsAreKept(col, v);
      var p := Keyed(col, CanonAll(col, v));
      SortLaw(p);
      FiledAgain(col, CanonAll(col, v));
    }
  }

  /** Entry `i` is the one entry under "id", and its value is a string. */
  predicate IdAt(v: Value, i: int, s: string) {
    v.Obj? && 0 <= i < |v.entries| && v.entries[i] == ("id", Text(s)) && forall j :: 0 <= j < |v.entries| && j != i ==> v.entries[j].0 != "id"
  }

  /** The id of a value is the string that its only entry under "id" holds. */
  lemma IdOfIff(v: Value, s: string)
    ensures IdOf(v) == Some(s) <==> exists i :: IdAt(v, i, s)
  {
    if v.Obj? {
      var p := v.entries;
      if IdOf(v) == Some(s) {
        var i := FindOccurrence(p, "id", |p|, 0);
        OccurrenceLaw(p, i);
        forall j | 0 <= j < |p| && j != i ensures p[j].0 != "id" {
          if p[j].0 == "id" {
            OccurrenceLaw(p, j);
            LaterOccurs(p, if i < j then i else j, if i < j then j else i);
          }
        }
        assert IdAt(v, i, s);
      }
      if i :| IdAt(v, i, s) {
        FirstOfItsKey(p, "id", i);
        GroupOfLastOnly(p, "id", i, |p|);
      }
    }
  }

  /** Of two entries under one key the later one counts the earlier one. */
  lemma LaterOccurs(p: seq<(string, Value)>, i: nat, j: nat)
    requires i < j < |p| && p[i].0 == p[j].0
    ensures Occurrence(p, i) < Occurrence(p, j)
  {
    GroupGrows(p, p[i].0, i + 1, j);
  }

  lemma {:induction false} GroupOfLastOnly(p: seq<(string, Value)>, key: string, i: nat, n: nat)
    requires i < n <= |p| && p[i].0 == key && Group(p, key, i) == [] && forall j :: i < j < n ==> p[j].0 != key
    ensures Group(p, key, n) == [p[i].1]
  {
    if n > i + 1 {
      GroupOfLastOnly(p, key, i, n - 1);
    }
  }
}
