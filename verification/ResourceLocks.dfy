/** The in-memory resource lock table of the execution kernel. */
module ResourceLocks {
  import opened Common

  datatype Resource = Resource(kind: string, key: string)

  /** A lock is filed under one text made of the resource's kind and key. */
  function FileKey(r: Resource): string {
    r.kind + ":" + r.key
  }

  function FileKeys(rs: seq<Resource>, n: nat): set<string>
    requires n <= |rs|
  {
    if n == 0 then {} else FileKeys(rs, n - 1) + {FileKey(rs[n - 1])}
  }

  datatype LockError = InvalidResource | DuplicateResource | Conflict

  /** Who holds which resource. */
  type Table = map<string, string>

  predicate Invalid(rs: seq<Resource>) {
    exists i :: 0 <= i < |rs| && (rs[i].kind == "" || rs[i].key == "")
  }

  predicate HasDuplicates(rs: seq<Resource>) {
    exists i, j :: 0 <= i < j < |rs| && FileKey(rs[i]) == FileKey(rs[j])
  }

  predicate HeldByOther(table: Table, runId: string, key: string) {
    key in table && table[key] != runId
  }

  predicate HasConflict(table: Table, runId: string, rs: seq<Resource>) {
    exists i :: 0 <= i < |rs| && HeldByOther(table, runId, FileKey(rs[i]))
  }

  /** Some resource of the list is held, by anyone. */
  predicate Held(table: Table, rs: seq<Resource>) {
    exists i :: 0 <= i < |rs| && FileKey(rs[i]) in table
  }

  function Refusal(table: Table, runId: string, rs: seq<Resource>): Option<LockError> {
    if Invalid(rs) then Some(InvalidResource)
    else if HasDuplicates(rs) then Some(DuplicateResource)
    else if HasConflict(table, runId, rs) then Some(Conflict)
    else None
  }

  /** The table after a run took every resource of the list. */
  function Taken(table: Table, runId: string, keys: set<string>): Table {
    map k | k in table.Keys + keys :: if k in keys then runId else table[k]
  }

  /** The table without the locks of one run. */
  function Freed(table: Table, runId: string): Table {
    map k | k in table && table[k] != runId :: table[k]
  }

  class LockManager {
    var locks: Table

    constructor ()
      ensures locks == map[]
    {
      locks := map[];
    }

    /** All resources or none: a refused request leaves the table as it was. */
    method AcquireAll(runId: string, rs: seq<Resource>) returns (r: Option<LockError>)
      modifies this
      ensures r == Refusal(old(locks), runId, rs)
      ensures locks == if r.None? then Taken(old(locks), runId, FileKeys(rs, |rs|)) else old(locks)
    {
      if Invalid(rs) {
        return Some(InvalidResource);
      }
      if HasDuplicates(rs) {
        return Some(DuplicateResource);
      }
      if HasConflict(locks, runId, rs) {
        return Some(Conflict);
      }
      for i := 0 to |rs|
        invariant locks == Taken(old(locks), runId, FileKeys(rs, i))
      {
        locks := locks[FileKey(rs[i]) := runId];
      }
      r := None;
    }

    method ReleaseAll(runId: string) returns (released: set<string>)
      modifies this
      ensures locks == Freed(old(locks), runId)
      ensures forall k :: k in released <==> k in old(locks) && old(locks)[k] == runId
    {
      released := {};
      var todo := locks.Keys;
      while todo != {}
        invariant todo <= old(locks).Keys
        invariant forall k :: k in released <==> k in old(locks) && old(locks)[k] == runId && k !in todo
        invariant forall k :: k in locks <==> k in old(locks) && (old(locks)[k] != runId || k in todo)
        invariant forall k :: k in locks ==> locks[k] == old(locks)[k]
        decreases todo
      {
        var k :| k in todo;
        if locks[k] == runId {
          released := released + {k};
          locks := locks - {k};
        }
        todo := todo - {k};
      }
    }
  }

  lemma {:induction false} FileKeysHold(rs: seq<Resource>, n: nat, i: nat)
    requires i < n <= |rs|
    ensures FileKey(rs[i]) in FileKeys(rs, n)
  {
    if i < n - 1 {
      FileKeysHold(rs, n - 1, i);
    }
  }

  lemma {:induction false} FileKeysOnly(rs: seq<Resource>, n: nat, key: string) returns (i: nat)
    requires n <= |rs| && key in FileKeys(rs, n)
    ensures i < n && FileKey(rs[i]) == key
  {
    if key in FileKeys(rs, n - 1) {
      i := FileKeysOnly(rs, n - 1, key);
    } else {
      i := n - 1;
    }
  }

  /** Acquiring keeps every lock there was, gives the run all it asked for, and adds nothing else. */
  lemma AcquireLaw(table: Table, runId: string, rs: seq<Resource>)
    requires Refusal(table, runId, rs).None?
    ensures var next := Taken(table, runId, FileKeys(rs, |rs|));
      && (forall k :: k in table ==> k in next && next[k] == table[k])
      && (forall i :: 0 <= i < |rs| ==> FileKey(rs[i]) in next && next[FileKey(rs[i])] == runId)
      && (forall k :: k in next && k !in table ==> k in FileKeys(rs, |rs|))
  {
    var keys := FileKeys(rs, |rs|);
    forall i | 0 <= i < |rs| ensures FileKey(rs[i]) in keys {
      FileKeysHold(rs, |rs|, i);
    }
    forall k | k in table && k in keys ensures table[k] == runId {
      var i := FileKeysOnly(rs, |rs|, k);
      assert !HeldByOther(table, runId, FileKey(rs[i]));
    }
  }

  /** Acquiring and releasing is the identity on a table that held nothing for the run. */
  lemma AcquireThenRelease(table: Table, runId: string, rs: seq<Resource>)
    requires Refusal(table, runId, rs).None? && forall k :: k in table ==> table[k] != runId
    ensures Freed(Taken(table, runId, FileKeys(rs, |rs|)), runId) == table
  {
    AcquireLaw(table, runId, rs);
  }

  /** Two resources whose kinds have no colon share a lock exactly when they are one resource. */
  lemma FileKeyIff(a: Resource, b: Resource)
    requires ':' !in a.kind && ':' !in b.kind
    ensures FileKey(a) == FileKey(b) <==> a == b
  {
    if FileKey(a) == FileKey(b) {
      var text := FileKey(a);
      assert text[|a.kind|] == ':' && text[|b.kind|] == ':';
      assert forall i :: 0 <= i < |a.kind| ==> text[i] == a.kind[i] != ':';
      assert forall i :: 0 <= i < |b.kind| ==> text[i] == b.kind[i] != ':';
      assert |a.kind| == |b.kind|;
      assert a.kind == text[..|a.kind|] == b.kind;
      assert a.key == text[|a.kind| + 1..] == b.key;
    }
  }

  /** A kind with a colon can share the lock of another resource. */
  lemma ColonsCollide()
    ensures FileKey(Resource("a:b", "c")) == FileKey(Resource("a", "b:c"))
  {
    assert "a:b" + ":" + "c" == "a" + ":" + "b:c";
  }

  /** Why a request for locks is refused, in the order of the checks, and that it is refused for nothing else. */
  lemma RefusalMeans(table: Table, runId: string, rs: seq<Resource>)
    ensures Refusal(table, runId, rs) == Some(InvalidResource) <==> exists i :: 0 <= i < |rs| && (rs[i].kind == "" || rs[i].key == "")
    ensures Refusal(table, runId, rs) == Some(DuplicateResource) ==> exists i, j :: 0 <= i < j < |rs| && FileKey(rs[i]) == FileKey(rs[j])
    ensures Refusal(table, runId, rs) == Some(Conflict) ==>
      exists i :: 0 <= i < |rs| && FileKey(rs[i]) in table && table[FileKey(rs[i])] != runId
    ensures Refusal(table, runId, rs) == None ==>
      && (forall i, j :: 0 <= i < j < |rs| ==> FileKey(rs[i]) != FileKey(rs[j]))
      && forall i :: 0 <= i < |rs| && FileKey(rs[i]) in table ==> table[FileKey(rs[i])] == runId
  {
    if Refusal(table, runId, rs) == Some(Conflict) {
      var i :| 0 <= i < |rs| && HeldByOther(table, runId, FileKey(rs[i]));
    }
    if Refusal(table, runId, rs) == None {
      forall i | 0 <= i < |rs| && FileKey(rs[i]) in table ensures table[FileKey(rs[i])] == runId {
        assert !HeldByOther(table, runId, FileKey(rs[i]));
      }
    }
  }
}
