/**
 The redactors of the operator panels: a plain recursion over trees, and a cycle-safe one over an object graph
 that remembers the objects it is inside of.
 */
module Redaction {
  import opened Common

  /** A finite value, as the plain recursion sees it and as both return it. */
  datatype Tree = Str(text: string) | Leaf(code: int) | List(items: seq<Tree>) | Record(entries: seq<(string, Tree)>)

  /** A value in an object graph: text, another primitive, or a reference to an object. */
  datatype Ref = Text(text: string) | Atom(code: int) | At(node: int)

  datatype Node = Arr(items: seq<Ref>) | Obj(entries: seq<(string, Ref)>)

  type Heap = map<int, Node>

  /** Which keys and which strings count as sensitive. */
  datatype Rules = Rules(key: string -> bool, text: string -> bool)

  const REDACTED := "[redacted]"
  const CIRCULAR := "[circular]"

  predicate Within(heap: Heap, v: Ref) {
    v.At? ==> v.node in heap
  }

  /** Every reference in the graph leads to an object of the graph. */
  predicate Complete(heap: Heap) {
    forall n :: n in heap ==>
      match heap[n]
      case Arr(items) => forall i :: 0 <= i < |items| ==> Within(heap, items[i])
      case Obj(entries) => forall i :: 0 <= i < |entries| ==> Within(heap, entries[i].1)
  }

  // ---------------------------------------------------------------- the two redactors

  /** The plain recursion over a finite value. */
  function Plain(rules: Rules, t: Tree, key: string): Tree
    decreases t
  {
    if rules.key(key) then Str(REDACTED)
    else
      match t
      case Str(s) => Str(if rules.text(s) then REDACTED else s)
      case Leaf(_) => t
      case List(items) => List(seq(|items|, i requires 0 <= i < |items| => Plain(rules, items[i], "")))
      case Record(entries) =>
        Record(seq(|entries|, i requires 0 <= i < |entries| => (entries[i].0, Plain(rules, entries[i].1, entries[i].0))))
  }

  /** What the cycle-safe recursion returns inside the objects of `seen`, with `mark` for a cycle. */
  function Safe(rules: Rules, heap: Heap, v: Ref, key: string, seen: set<int>, mark: string): Tree
    requires Complete(heap) && Within(heap, v)
    decreases heap.Keys - seen
  {
    if rules.key(key) then Str(REDACTED)
    else
      match v
      case Text(s) => Str(if rules.text(s) then REDACTED else s)
      case Atom(c) => Leaf(c)
      case At(n) =>
        if n in seen then Str(mark)
        else
          match heap[n]
          case Arr(items) =>
            List(seq(|items|, i requires 0 <= i < |items| => Safe(rules, heap, items[i], "", seen + {n}, mark)))
          case Obj(entries) =>
            Record(seq(|entries|, i requires 0 <= i < |entries| =>
              (entries[i].0, Safe(rules, heap, entries[i].1, entries[i].0, seen + {n}, mark))))
  }

  /** The recursion as it runs: one mutable set of objects, added to on the way in and restored on the way out. */
  class Redactor {
    const rules: Rules
    const heap: Heap
    var seen: set<int>

    constructor (rules: Rules, heap: Heap)
      ensures this.rules == rules && this.heap == heap && seen == {}
    {
      this.rules := rules;
      this.heap := heap;
      seen := {};
    }

    method Visit(v: Ref, key: string) returns (out: Tree)
      requires Complete(heap) && Within(heap, v)
      modifies this
      ensures seen == old(seen)
      ensures out == Safe(rules, heap, v, key, seen, CIRCULAR)
      decreases heap.Keys - seen, 1
    {
      if rules.key(key) {
        return Str(REDACTED);
      }
      match v
      case Text(s) => out := Str(if rules.text(s) then REDACTED else s);
      case Atom(c) => out := Leaf(c);
      case At(n) =>
        if n in seen {
          return Str(CIRCULAR);
        }
        seen := seen + {n};
        match heap[n] {
          case Arr(items) =>
            var list := VisitItems(items);
            out := List(list);
          case Obj(entries) =>
            var record := VisitEntries(entries);
            out := Record(record);
        }
        seen := seen - {n};
    }

    method VisitItems(items: seq<Ref>) returns (list: seq<Tree>)
      requires Complete(heap) && forall i :: 0 <= i < |items| ==> Within(heap, items[i])
      modifies this
      ensures seen == old(seen)
      ensures |list| == |items|
      ensures forall i :: 0 <= i < |items| ==> list[i] == Safe(rules, heap, items[i], "", seen, CIRCULAR)
      decreases heap.Keys - seen, 2
    {
      list := [];
      for k := 0 to |items|
        invariant seen == old(seen) && |list| == k
        invariant forall i :: 0 <= i < k ==> list[i] == Safe(rules, heap, items[i], "", seen, CIRCULAR)
      {
        var item := Visit(items[k], "");
        list := list + [item];
      }
    }

    method VisitEntries(entries: seq<(string, Ref)>) returns (record: seq<(string, Tree)>)
      requires Complete(heap) && forall i :: 0 <= i < |entries| ==> Within(heap, entries[i].1)
      modifies this
      ensures seen == old(seen)
      ensures |record| == |entries|
      ensures forall i :: 0 <= i < |entries| ==>
        record[i] == (entries[i].0, Safe(rules, heap, entries[i].1, entries[i].0, seen, CIRCULAR))
      decreases heap.Keys - seen, 2
    {
      record := [];
      for k := 0 to |entries|
        invariant seen == old(seen) && |record| == k
        invariant forall i :: 0 <= i < k ==>
          record[i] == (entries[i].0, Safe(rules, heap, entries[i].1, entries[i].0, seen, CIRCULAR))
      {
        var nested := Visit(entries[k].1, entries[k].0);
        record := record + [(entries[k].0, nested)];
      }
    }
  }

  // ---------------------------------------------------------------- finite unfoldings

  /** `t` is the finite value that `v` stands for in the graph. */
  ghost predicate Unfolds(heap: Heap, v: Ref, t: Tree)
    requires Complete(heap) && Within(heap, v)
    decreases t
  {
    match v
    case Text(s) => t == Str(s)
    case Atom(c) => t == Leaf(c)
    case At(n) =>
      match heap[n]
      case Arr(items) =>
        t.List? && |t.items| == |items| && forall i :: 0 <= i < |items| ==> Unfolds(heap, items[i], t.items[i])
      case Obj(entries) =>
        && t.Record? && |t.entries| == |entries|
        && forall i :: 0 <= i < |entries| ==> t.entries[i].0 == entries[i].0 && Unfolds(heap, entries[i].1, t.entries[i].1)
  }

  /** The same, with every part under a sensitive key cut off: what an operator may see of `v`. */
  ghost predicate Shows(rules: Rules, heap: Heap, v: Ref, key: string, t: Tree)
    requires Complete(heap) && Within(heap, v)
    decreases t
  {
    if rules.key(key) then t == Str(REDACTED)
    else
      match v
      case Text(s) => t == Str(s)
      case Atom(c) => t == Leaf(c)
      case At(n) =>
        match heap[n]
        case Arr(items) =>
          && t.List? && |t.items| == |items|
          && forall i :: 0 <= i < |items| ==> Shows(rules, heap, items[i], "", t.items[i])
        case Obj(entries) =>
          && t.Record? && |t.entries| == |entries|
          && forall i :: 0 <= i < |entries| ==>
            t.entries[i].0 == entries[i].0 && Shows(rules, heap, entries[i].1, entries[i].0, t.entries[i].1)
  }

  /** Only the sensitive keys of the rules. */
  function KeysOnly(rules: Rules): Rules {
    Rules(rules.key, (s: string) => false)
  }

  lemma {:induction false} UnfoldingShows(rules: Rules, heap: Heap, v: Ref, key: string, t: Tree)
    requires Complete(heap) && Within(heap, v) && Unfolds(heap, v, t)
    ensures Shows(rules, heap, v, key, Plain(KeysOnly(rules), t, key))
    ensures Plain(rules, Plain(KeysOnly(rules), t, key), key) == Plain(rules, t, key)
    decreases t
  {
    if !rules.key(key) && v.At? {
      var cut := Plain(KeysOnly(rules), t, key);
      match heap[v.node]
      case Arr(items) =>
        forall i | 0 <= i < |items| ensures Shows(rules, heap, items[i], "", cut.items[i])
            && Plain(rules, cut.items[i], "") == Plain(rules, t.items[i], "") {
          UnfoldingShows(rules, heap, items[i], "", t.items[i]);
        }
      case Obj(entries) =>
        forall i | 0 <= i < |entries| ensures Shows(rules, heap, entries[i].1, entries[i].0, cut.entries[i].1)
            && Plain(rules, cut.entries[i].1, entries[i].0) == Plain(rules, t.entries[i].1, entries[i].0) {
          UnfoldingShows(rules, heap, entries[i].1, entries[i].0, t.entries[i].1);
        }
    }
  }

  lemma {:induction false} ShownOnce(rules: Rules, heap: Heap, v: Ref, key: string, t: Tree, u: Tree)
    requires Complete(heap) && Within(heap, v) && Shows(rules, heap, v, key, t) && Shows(rules, heap, v, key, u)
    ensures t == u
    decreases t
  {
    if !rules.key(key) && v.At? {
      match heap[v.node]
      case Arr(items) =>
        forall i | 0 <= i < |items| ensures t.items[i] == u.items[i] {
          ShownOnce(rules, heap, items[i], "", t.items[i], u.items[i]);
        }
      case Obj(entries) =>
        forall i | 0 <= i < |entries| ensures t.entries[i] == u.entries[i] {
          ShownOnce(rules, heap, entries[i].1, entries[i].0, t.entries[i].1, u.entries[i].1);
        }
    }
  }

  /** Everything shown by an object of `seen` properly contains `t`. */
  ghost predicate Inside(rules: Rules, heap: Heap, seen: set<int>, t: Tree)
    requires Complete(heap)
  {
    forall n, key, u :: n in seen && n in heap && !rules.key(key) && Shows(rules, heap, At(n), key, u) ==> t < u
  }

  lemma StepInside(rules: Rules, heap: Heap, seen: set<int>, n: int, key: string, t: Tree, part: Tree)
    requires Complete(heap) && n in heap && !rules.key(key) && Shows(rules, heap, At(n), key, t)
    requires Inside(rules, heap, seen, t) && part < t
    ensures Inside(rules, heap, seen + {n}, part)
  {
    forall m, k, u | m in seen + {n} && m in heap && !rules.key(k) && Shows(rules, heap, At(m), k, u) ensures part < u {
      if m in seen {
        assert t < u;
      } else {
        assert Shows(rules, heap, At(n), key, u);
        ShownOnce(rules, heap, At(n), key, t, u);
      }
    }
  }

  lemma {:induction false} SafeOfShown(rules: Rules, heap: Heap, v: Ref, key: string, seen: set<int>, mark: string, t: Tree)
    requires Complete(heap) && Within(heap, v) && Shows(rules, heap, v, key, t) && Inside(rules, heap, seen, t)
    ensures Safe(rules, heap, v, key, seen, mark) == Plain(rules, t, key)
    decreases t
  {
    if !rules.key(key) && v.At? {
      var n := v.node;
      assert n !in seen;
      match heap[n]
      case Arr(items) =>
        forall i | 0 <= i < |items|
          ensures Safe(rules, heap, items[i], "", seen + {n}, mark) == Plain(rules, t.items[i], "") {
          StepInside(rules, heap, seen, n, key, t, t.items[i]);
          SafeOfShown(rules, heap, items[i], "", seen + {n}, mark, t.items[i]);
        }
      case Obj(entries) =>
        forall i | 0 <= i < |entries|
          ensures Safe(rules, heap, entries[i].1, entries[i].0, seen + {n}, mark) == Plain(rules, t.entries[i].1, entries[i].0) {
          StepInside(rules, heap, seen, n, key, t, t.entries[i].1);
          SafeOfShown(rules, heap, entries[i].1, entries[i].0, seen + {n}, mark, t.entries[i].1);
        }
    }
  }

  /** On a value with a finite unfolding the cycle-safe form returns what the plain recursion returns: shared
      objects are never marked. */
  lemma AgreesWithPlain(rules: Rules, heap: Heap, v: Ref, key: string, t: Tree)
    requires Complete(heap) && Within(heap, v) && Unfolds(heap, v, t)
    ensures Safe(rules, heap, v, key, {}, CIRCULAR) == Plain(rules, t, key)
  {
    UnfoldingShows(rules, heap, v, key, t);
    SafeOfShown(rules, heap, v, key, {}, CIRCULAR, Plain(KeysOnly(rules), t, key));
  }

  /** If the marker leaves no trace in the result, the result is what `v` shows. */
  lemma {:induction false} UnmarkedShows(rules: Rules, heap: Heap, v: Ref, key: string, seen: set<int>, m: string, m': string)
    requires Complete(heap) && Within(heap, v) && m != m'
    requires Safe(rules, heap, v, key, seen, m) == Safe(rules, heap, v, key, seen, m')
    ensures Shows(rules, heap, v, key, Safe(KeysOnly(rules), heap, v, key, seen, m))
    decreases heap.Keys - seen
  {
    if !rules.key(key) && v.At? {
      var n := v.node;
      var r, r' := Safe(rules, heap, v, key, seen, m), Safe(rules, heap, v, key, seen, m');
      match heap[n]
      case Arr(items) =>
        forall i | 0 <= i < |items|
          ensures Shows(rules, heap, items[i], "", Safe(KeysOnly(rules), heap, items[i], "", seen + {n}, m)) {
          assert r.items[i] == r'.items[i];
          UnmarkedShows(rules, heap, items[i], "", seen + {n}, m, m');
        }
      case Obj(entries) =>
        forall i | 0 <= i < |entries|
          ensures Shows(rules, heap, entries[i].1, entries[i].0,
                        Safe(KeysOnly(rules), heap, entries[i].1, entries[i].0, seen + {n}, m)) {
          assert r.entries[i] == r'.entries[i];
          UnmarkedShows(rules, heap, entries[i].1, entries[i].0, seen + {n}, m, m');
        }
    }
  }

  // ---------------------------------------------------------------- cycles

  /** Object `n` holds object `m` under a key that is not sensitive. */
  predicate Sees(rules: Rules, heap: Heap, n: int, m: int) {
    n in heap &&
    match heap[n]
    case Arr(items) => !rules.key("") && At(m) in items
    case Obj(entries) => exists i :: 0 <= i < |entries| && entries[i].1 == At(m) && !rules.key(entries[i].0)
  }

  ghost predicate Linked(rules: Rules, heap: Heap, p: seq<int>, from: nat) {
    forall k :: from <= k < |p| - 1 ==> Sees(rules, heap, p[k], p[k + 1])
  }

  /** A walk through the objects visible from `v`. */
  ghost predicate Walk(rules: Rules, heap: Heap, v: Ref, key: string, p: seq<int>) {
    p != [] && v == At(p[0]) && !rules.key(key) && Linked(rules, heap, p, 0)
  }

  /** A walk that comes back to an object it has been to. */
  ghost predicate Returns(rules: Rules, heap: Heap, v: Ref, key: string, p: seq<int>) {
    Walk(rules, heap, v, key, p) && p[|p| - 1] in p[..|p| - 1]
  }

  /** What an object shows properly contains what the objects it sees show. */
  lemma SeenShowsLess(rules: Rules, heap: Heap, key: string, n: int, m: int, t: Tree) returns (u: Tree)
    requires Complete(heap) && Sees(rules, heap, n, m) && !rules.key(key) && Shows(rules, heap, At(n), key, t)
    ensures m in heap && Shows(rules, heap, At(m), key, u) && u < t
  {
    match heap[n]
    case Arr(items) =>
      var i :| 0 <= i < |items| && items[i] == At(m);
      assert Within(heap, items[i]);
      u := t.items[i];
    case Obj(entries) =>
      var i :| 0 <= i < |entries| && entries[i].1 == At(m) && !rules.key(entries[i].0);
      assert Within(heap, entries[i].1);
      u := t.entries[i].1;
  }

  lemma {:induction false} WalkShowsLess(rules: Rules, heap: Heap, key: string, p: seq<int>, i: nat, t: Tree) returns (u: Tree)
    requires Complete(heap) && i < |p| - 1 && Linked(rules, heap, p, i) && !rules.key(key)
    requires p[i] in heap && Shows(rules, heap, At(p[i]), key, t)
    ensures p[|p| - 1] in heap && Shows(rules, heap, At(p[|p| - 1]), key, u) && u < t
    decreases |p| - i
  {
    u := SeenShowsLess(rules, heap, key, p[i], p[i + 1], t);
    if i + 1 < |p| - 1 {
      u := WalkShowsLess(rules, heap, key, p, i + 1, u);
    }
  }

  lemma {:induction false} NodeOfWalkShows(rules: Rules, heap: Heap, v: Ref, key: string, p: seq<int>, i: nat, t: Tree)
    returns (u: Tree)
    requires Complete(heap) && Within(heap, v) && Walk(rules, heap, v, key, p) && Shows(rules, heap, v, key, t) && i < |p|
    ensures p[i] in heap && Shows(rules, heap, At(p[i]), key, u)
  {
    if i == 0 {
      u := t;
    } else {
      u := NodeOfWalkShows(rules, heap, v, key, p, i - 1, t);
      assert Sees(rules, heap, p[i - 1], p[(i - 1) + 1]);
      u := SeenShowsLess(rules, heap, key, p[i - 1], p[i], u);
    }
  }

  lemma ReturningShowsNothing(rules: Rules, heap: Heap, v: Ref, key: string, p: seq<int>, t: Tree)
    requires Complete(heap) && Within(heap, v) && Returns(rules, heap, v, key, p)
    ensures !Shows(rules, heap, v, key, t)
  {
    if Shows(rules, heap, v, key, t) {
      var i :| 0 <= i < |p| - 1 && p[i] == p[|p| - 1];
      var u := NodeOfWalkShows(rules, heap, v, key, p, i, t);
      var w := WalkShowsLess(rules, heap, key, p, i, u);
      ShownOnce(rules, heap, At(p[i]), key, u, w);
    }
  }

  ghost predicate Marked(rules: Rules, heap: Heap, v: Ref, key: string, seen: set<int>, m: string, m': string)
    requires Complete(heap) && Within(heap, v)
  {
    Safe(rules, heap, v, key, seen, m) != Safe(rules, heap, v, key, seen, m')
  }

  /** A marker inside an object comes from something the object sees. */
  lemma MarkedBelow(rules: Rules, heap: Heap, n: int, key: string, seen: set<int>, m: string, m': string)
    returns (v: Ref, k: string)
    requires Complete(heap) && n in heap && n !in seen && !rules.key(key) && Marked(rules, heap, At(n), key, seen, m, m')
    ensures Within(heap, v) && Marked(rules, heap, v, k, seen + {n}, m, m')
    ensures v.At? && !rules.key(k) && Sees(rules, heap, n, v.node)
  {
    var r, r' := Safe(rules, heap, At(n), key, seen, m), Safe(rules, heap, At(n), key, seen, m');
    match heap[n]
    case Arr(items) =>
      var i :| 0 <= i < |items| && r.items[i] != r'.items[i];
      v, k := items[i], "";
    case Obj(entries) =>
      var i :| 0 <= i < |entries| && r.entries[i] != r'.entries[i];
      v, k := entries[i].1, entries[i].0;
      assert r.entries[i] == (k, Safe(rules, heap, v, k, seen + {n}, m));
      assert r'.entries[i] == (k, Safe(rules, heap, v, k, seen + {n}, m'));
      assert entries[i].1 == v && !rules.key(entries[i].0);
  }

  lemma {:induction false} MarkedReturns(rules: Rules, heap: Heap, v: Ref, key: string, before: seq<int>, w: Ref, k: string,
      m: string, m': string)
    returns (p: seq<int>)
    requires Complete(heap) && Within(heap, w) && w.At? && !rules.key(k)
    requires Walk(rules, heap, v, key, before + [w.node])
    requires Marked(rules, heap, w, k, (set n | n in before), m, m')
    ensures Returns(rules, heap, v, key, p)
    decreases heap.Keys - (set n | n in before)
  {
    var seen := set n | n in before;
    p := before + [w.node];
    if w.node in seen {
      assert p[..|p| - 1] == before;
    } else {
      var next, nextKey := MarkedBelow(rules, heap, w.node, k, seen, m, m');
      var longer := p + [next.node];
      forall j | 0 <= j < |longer| - 1 ensures Sees(rules, heap, longer[j], longer[j + 1]) {
        if j < |p| - 1 {
          assert Sees(rules, heap, p[j], p[j + 1]);
        }
      }
      assert (set n | n in p) == seen + {w.node};
      p := MarkedReturns(rules, heap, v, key, p, next, nextKey, m, m');
    }
  }

  /** The circular marker reaches the result exactly when some walk through the visible objects comes back to an
      object it has been to, which is exactly when what `v` shows is not finite. */
  lemma MarkedIff(rules: Rules, heap: Heap, v: Ref, key: string, other: string)
    requires Complete(heap) && Within(heap, v) && other != CIRCULAR
    ensures Safe(rules, heap, v, key, {}, CIRCULAR) != Safe(rules, heap, v, key, {}, other)
      <==> exists p :: Returns(rules, heap, v, key, p)
    ensures (exists p :: Returns(rules, heap, v, key, p)) <==> forall t :: !Shows(rules, heap, v, key, t)
  {
    if p :| Returns(rules, heap, v, key, p) {
      forall t ensures !Shows(rules, heap, v, key, t) {
        ReturningShowsNothing(rules, heap, v, key, p, t);
      }
    }
    forall t | Shows(rules, heap, v, key, t) ensures !Marked(rules, heap, v, key, {}, CIRCULAR, other) {
      SafeOfShown(rules, heap, v, key, {}, CIRCULAR, t);
      SafeOfShown(rules, heap, v, key, {}, other, t);
    }
    if Marked(rules, heap, v, key, {}, CIRCULAR, other) {
      var start: seq<int> := [];
      assert (set n | n in start) == {} && start + [v.node] == [v.node];
      var p := MarkedReturns(rules, heap, v, key, start, v, key, CIRCULAR, other);
    } else {
      UnmarkedShows(rules, heap, v, key, {}, CIRCULAR, other);
      var t := Safe(KeysOnly(rules), heap, v, key, {}, CIRCULAR);
      assert Shows(rules, heap, v, key, t);
    }
  }

  // ---------------------------------------------------------------- nothing sensitive remains

  /** No value under a sensitive key, and no sensitive string. */
  predicate Clean(rules: Rules, t: Tree, key: string)
    decreases t
  {
    if rules.key(key) then t == Str(REDACTED)
    else
      match t
      case Str(s) => !rules.text(s)
      case Leaf(_) => true
      case List(items) => forall i :: 0 <= i < |items| ==> Clean(rules, items[i], "")
      case Record(entries) => forall i :: 0 <= i < |entries| ==> Clean(rules, entries[i].1, entries[i].0)
  }

  lemma {:induction false} SafeIsClean(rules: Rules, heap: Heap, v: Ref, key: string, seen: set<int>)
    requires Complete(heap) && Within(heap, v) && !rules.text(REDACTED) && !rules.text(CIRCULAR)
    ensures Clean(rules, Safe(rules, heap, v, key, seen, CIRCULAR), key)
    decreases heap.Keys - seen
  {
    if !rules.key(key) && v.At? && v.node !in seen {
      var n := v.node;
      match heap[n]
      case Arr(items) =>
        forall i | 0 <= i < |items| ensures Clean(rules, Safe(rules, heap, items[i], "", seen + {n}, CIRCULAR), "") {
          SafeIsClean(rules, heap, items[i], "", seen + {n});
        }
      case Obj(entries) =>
        forall i | 0 <= i < |entries|
          ensures Clean(rules, Safe(rules, heap, entries[i].1, entries[i].0, seen + {n}, CIRCULAR), entries[i].0) {
          SafeIsClean(rules, heap, entries[i].1, entries[i].0, seen + {n});
        }
    }
  }

  /** The plain recursion leaves a value alone exactly when the value is clean. */
  lemma {:induction false} FixedIffClean(rules: Rules, t: Tree, key: string)
    requires !rules.text(REDACTED)
    ensures Plain(rules, t, key) == t <==> Clean(rules, t, key)
    decreases t
  {
    if !rules.key(key) {
      var p := Plain(rules, t, key);
      match t
      case Str(_) =>
      case Leaf(_) =>
      case List(items) =>
        forall i | 0 <= i < |items| ensures p.items[i] == items[i] <==> Clean(rules, items[i], "") {
          FixedIffClean(rules, items[i], "");
        }
        assert p == t <==> forall i :: 0 <= i < |items| ==> p.items[i] == items[i];
      case Record(entries) =>
        forall i | 0 <= i < |entries| ensures p.entries[i] == entries[i] <==> Clean(rules, entries[i].1, entries[i].0) {
          FixedIffClean(rules, entries[i].1, entries[i].0);
        }
        assert p == t <==> forall i :: 0 <= i < |entries| ==> p.entries[i] == entries[i];
    }
  }

  /** Redacting a redacted value, wherever its objects now live, returns it unchanged. */
  lemma SafeIsIdempotent(rules: Rules, heap: Heap, v: Ref, key: string, heap': Heap, v': Ref)
    requires Complete(heap) && Within(heap, v) && !rules.text(REDACTED) && !rules.text(CIRCULAR)
    requires Complete(heap') && Within(heap', v') && Unfolds(heap', v', Safe(rules, heap, v, key, {}, CIRCULAR))
    ensures Safe(rules, heap', v', key, {}, CIRCULAR) == Safe(rules, heap, v, key, {}, CIRCULAR)
  {
    var t := Safe(rules, heap, v, key, {}, CIRCULAR);
    SafeIsClean(rules, heap, v, key, {});
    FixedIffClean(rules, t, key);
    AgreesWithPlain(rules, heap', v', key, t);
  }

  lemma {:induction false} CleanIsMonotone(weak: Rules, strong: Rules, t: Tree, key: string)
    requires forall k :: weak.key(k) ==> strong.key(k)
    requires forall s :: weak.text(s) ==> strong.text(s)
    requires Clean(strong, t, key) && !strong.text(REDACTED)
    ensures Clean(weak, t, key)
    decreases t
  {
    if !strong.key(key) {
      match t
      case Str(_) =>
      case Leaf(_) =>
      case List(items) =>
        forall i | 0 <= i < |items| ensures Clean(weak, items[i], "") {
          CleanIsMonotone(weak, strong, items[i], "");
        }
      case Record(entries) =>
        forall i | 0 <= i < |entries| ensures Clean(weak, entries[i].1, entries[i].0) {
          CleanIsMonotone(weak, strong, entries[i].1, entries[i].0);
        }
    }
  }

  /** The older panel, whose lists of sensitive keys and strings are shorter, finds nothing left to redact. */
  lemma WeakerRulesFindNothing(weak: Rules, strong: Rules, heap: Heap, v: Ref, key: string)
    requires Complete(heap) && Within(heap, v)
    requires forall k :: weak.key(k) ==> strong.key(k)
    requires forall s :: weak.text(s) ==> strong.text(s)
    requires !strong.text(REDACTED) && !strong.text(CIRCULAR)
    ensures Plain(weak, Safe(strong, heap, v, key, {}, CIRCULAR), key) == Safe(strong, heap, v, key, {}, CIRCULAR)
  {
    var t := Safe(strong, heap, v, key, {}, CIRCULAR);
    SafeIsClean(strong, heap, v, key, {});
    CleanIsMonotone(weak, strong, t, key);
    FixedIffClean(weak, t, key);
  }

  // ---------------------------------------------------------------- everything else remains

  /** The part of a finite value at the end of a path of positions, with its key; nothing under a sensitive key is reached. */
  function PartOf(rules: Rules, t: Tree, key: string, path: seq<nat>): Option<(Tree, string)>
    decreases |path|
  {
    if rules.key(key) then None
    else if path == [] then Some((t, key))
    else
      match t
      case List(items) => if path[0] < |items| then PartOf(rules, items[path[0]], "", path[1..]) else None
      case Record(entries) =>
        if path[0] < |entries| then PartOf(rules, entries[path[0]].1, entries[path[0]].0, path[1..]) else None
      case _ => None
  }

  /** The part of an object graph at the end of a path, with its key and the objects passed on the way. */
  function RefOf(rules: Rules, heap: Heap, v: Ref, key: string, passed: set<int>, path: seq<nat>): Option<(Ref, string, set<int>)>
    requires Complete(heap) && Within(heap, v)
    decreases |path|
  {
    if rules.key(key) then None
    else if path == [] then Some((v, key, passed))
    else if !v.At? || v.node in passed then None
    else
      match heap[v.node]
      case Arr(items) =>
        if path[0] < |items| then RefOf(rules, heap, items[path[0]], "", passed + {v.node}, path[1..]) else None
      case Obj(entries) =>
        if path[0] < |entries| then RefOf(rules, heap, entries[path[0]].1, entries[path[0]].0, passed + {v.node}, path[1..]) else None
  }

  /** A visible text stays unless it is sensitive. */
  function Shown(rules: Rules, s: string): Tree {
    Str(if rules.text(s) then REDACTED else s)
  }

  /** What the redacted value has where `t` stood: the same text or leaf, a list as long, a record with the same keys in the
      same order, and the mark in place of every value under a sensitive key. */
  predicate Replaces(rules: Rules, t: Tree, out: Tree) {
    match t
    case Str(s) => out == Shown(rules, s)
    case Leaf(_) => out == t
    case List(items) =>
      out.List? && |out.items| == |items| && (rules.key("") ==> forall i :: 0 <= i < |items| ==> out.items[i] == Str(REDACTED))
    case Record(entries) =>
      && out.Record? && |out.entries| == |entries|
      && forall i :: 0 <= i < |entries| ==>
           out.entries[i].0 == entries[i].0 && (rules.key(entries[i].0) ==> out.entries[i].1 == Str(REDACTED))
  }

  /** The same for a reference: a circular one is marked, an object keeps its shape. */
  predicate Stands(rules: Rules, heap: Heap, v: Ref, passed: set<int>, mark: string, out: Tree)
    requires Complete(heap) && Within(heap, v)
  {
    match v
    case Text(s) => out == Shown(rules, s)
    case Atom(c) => out == Leaf(c)
    case At(n) =>
      if n in passed then out == Str(mark)
      else
        match heap[n]
        case Arr(items) =>
          out.List? && |out.items| == |items| && (rules.key("") ==> forall i :: 0 <= i < |items| ==> out.items[i] == Str(REDACTED))
        case Obj(entries) =>
          && out.Record? && |out.entries| == |entries|
          && forall i :: 0 <= i < |entries| ==>
               out.entries[i].0 == entries[i].0 && (rules.key(entries[i].0) ==> out.entries[i].1 == Str(REDACTED))
  }

  /** Redaction touches nothing but what is sensitive: along every path that passes no sensitive key, the plain recursion
      has the same shape, keys and values as the original, in the same places. */
  lemma {:induction false} PlainKeepsTheRest(rules: Rules, t: Tree, key: string, path: seq<nat>)
    ensures var part := PartOf(rules, t, key, path); var out := PartOf(rules, Plain(rules, t, key), key, path);
      && (part.Some? <==> out.Some?)
      && (part.Some? ==> part.value.1 == out.value.1 && Replaces(rules, part.value.0, out.value.0))
    decreases |path|
  {
    if !rules.key(key) && path != [] {
      match t
      case List(items) =>
        if path[0] < |items| {
          PlainKeepsTheRest(rules, items[path[0]], "", path[1..]);
        }
      case Record(entries) =>
        if path[0] < |entries| {
          PlainKeepsTheRest(rules, entries[path[0]].1, entries[path[0]].0, path[1..]);
        }
      case _ =>
    }
  }

  /** So does the cycle-safe recursion, cycles included: a reference is marked exactly where it leads back to an object that
      the path has passed. */
  lemma {:induction false} SafeKeepsTheRest(
    rules: Rules, heap: Heap, v: Ref, key: string, passed: set<int>, mark: string, path: seq<nat>)
    requires Complete(heap) && Within(heap, v)
    ensures var part := RefOf(rules, heap, v, key, passed, path);
      var out := PartOf(rules, Safe(rules, heap, v, key, passed, mark), key, path);
      && (part.Some? <==> out.Some?)
      && (part.Some? ==>
            && Within(heap, part.value.0) && part.value.1 == out.value.1
            && Stands(rules, heap, part.value.0, part.value.2, mark, out.value.0))
    decreases |path|
  {
    if !rules.key(key) && path != [] && v.At? && v.node !in passed {
      match heap[v.node]
      case Arr(items) =>
        if path[0] < |items| {
          SafeKeepsTheRest(rules, heap, items[path[0]], "", passed + {v.node}, mark, path[1..]);
        }
      case Obj(entries) =>
        if path[0] < |entries| {
          SafeKeepsTheRest(rules, heap, entries[path[0]].1, entries[path[0]].0, passed + {v.node}, mark, path[1..]);
        }
    }
  }
}
