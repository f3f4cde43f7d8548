/** Searching, filtering and folding lists, as the array methods `indexOf`, `filter` and `reduce` do. */
module Lists {
  /** The first place of an element. */
  function IndexOf<T(==)>(items: seq<T>, x: T): (i: nat)
    requires x in items
    ensures i < |items| && items[i] == x && forall k :: 0 <= k < i ==> items[k] != x
  {
    if items[0] == x then 0 else 1 + IndexOf(items[1..], x)
  }

  /** The elements among the first `n` that pass the test, in order. */
  function KeepFirst<T>(items: seq<T>, n: nat, keep: T -> bool): (kept: seq<T>)
    requires n <= |items|
    ensures |kept| <= n
  {
    if n == 0 then []
    else if keep(items[n - 1]) then KeepFirst(items, n - 1, keep) + [items[n - 1]]
    else KeepFirst(items, n - 1, keep)
  }

  function Keep<T>(items: seq<T>, keep: T -> bool): seq<T> {
    KeepFirst(items, |items|, keep)
  }

  lemma {:induction false} KeptAtFirst<T>(items: seq<T>, n: nat, keep: T -> bool, i: nat)
    requires i < n <= |items| && keep(items[i])
    ensures |KeepFirst(items, i, keep)| < |KeepFirst(items, n, keep)|
    ensures KeepFirst(items, n, keep)[|KeepFirst(items, i, keep)|] == items[i]
  {
    if i < n - 1 {
      KeptAtFirst(items, n - 1, keep, i);
    }
  }

  /** An element that passes stands after exactly the earlier ones that pass: nothing is lost or reordered. */
  lemma KeptAt<T>(items: seq<T>, keep: T -> bool, i: nat)
    requires i < |items| && keep(items[i])
    ensures |KeepFirst(items, i, keep)| < |Keep(items, keep)|
    ensures Keep(items, keep)[|KeepFirst(items, i, keep)|] == items[i]
  {
    KeptAtFirst(items, |items|, keep, i);
  }

  lemma {:induction false} KeptFrom<T>(items: seq<T>, n: nat, keep: T -> bool, j: nat) returns (i: nat)
    requires n <= |items| && j < |KeepFirst(items, n, keep)|
    ensures i < n && keep(items[i]) && |KeepFirst(items, i, keep)| == j && items[i] == KeepFirst(items, n, keep)[j]
  {
    if keep(items[n - 1]) && j == |KeepFirst(items, n - 1, keep)| {
      i := n - 1;
    } else {
      i := KeptFrom(items, n - 1, keep, j);
    }
  }

  /** Filtering keeps exactly the elements that pass. */
  lemma KeepHolds<T(!new)>(items: seq<T>, keep: T -> bool)
    ensures forall x :: x in Keep(items, keep) <==> x in items && keep(x)
  {
    forall x | x in items && keep(x) ensures x in Keep(items, keep) {
      var i :| 0 <= i < |items| && items[i] == x;
      KeptAt(items, keep, i);
    }
    forall x | x in Keep(items, keep) ensures x in items && keep(x) {
      var j :| 0 <= j < |Keep(items, keep)| && Keep(items, keep)[j] == x;
      var i := KeptFrom(items, |items|, keep, j);
    }
  }

  lemma {:induction false} KeepSame<T(!new)>(items: seq<T>, n: nat, f: T -> bool, g: T -> bool)
    requires n <= |items| && forall x :: f(x) == g(x)
    ensures KeepFirst(items, n, f) == KeepFirst(items, n, g)
  {
    if n > 0 {
      KeepSame(items, n - 1, f, g);
    }
  }

  /** The state after the first `n` elements. */
  function Fold<S, A>(step: (S, A) -> S, start: S, items: seq<A>, n: nat): S
    requires n <= |items|
  {
    if n == 0 then start else step(Fold(step, start, items, n - 1), items[n - 1])
  }

  /** Folding one list after another is folding both in turn. */
  lemma {:induction false} FoldBoth<S, A>(step: (S, A) -> S, start: S, items: seq<A>, more: seq<A>, n: nat)
    requires n <= |more|
    ensures Fold(step, start, items + more, |items| + n) == Fold(step, Fold(step, start, items, |items|), more, n)
  {
    if n > 0 {
      FoldBoth(step, start, items, more, n - 1);
      assert (items + more)[|items| + n - 1] == more[n - 1];
    } else {
      FoldAgrees(step, start, items, items + more, |items|);
    }
  }

  lemma {:induction false} FoldAgrees<S, A>(step: (S, A) -> S, start: S, items: seq<A>, longer: seq<A>, n: nat)
    requires n <= |items| && items <= longer
    ensures Fold(step, start, longer, n) == Fold(step, start, items, n)
  {
    if n > 0 {
      FoldAgrees(step, start, items, longer, n - 1);
    }
  }
}
