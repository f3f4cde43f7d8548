/** The exchange two instances share, and the sequence chain that the destination demands of incoming requests. */
module DelegationExchange {
  import opened Common
  import opened Lists

  type Digest = int

  datatype Request = Request(
    id: string, sourceInstance: string, sourceWorkspace: string, destinationInstance: string, destinationWorkspace: string,
    sequence: int, previous: Option<Digest>, digest: Digest)

  datatype ReceiptState = Completed | Failed | Cancelled | Uncertain | Running

  /** The digest of a receipt covers all its fields, so equal digests mean equal receipts. */
  datatype Receipt = Receipt(
    requestId: string, sourceInstance: string, sourceWorkspace: string, revision: nat, state: ReceiptState, observedAt: int)

  datatype Cancellation = Cancellation(id: string, requestId: string)

  datatype StoredCancellation = StoredCancellation(
    cancellation: Cancellation, destinationInstance: string, destinationWorkspace: string, sequence: int)

  datatype Reply = Accepted | Duplicate | Divergent

  datatype Call =
    | CallSubmitRequest | CallReadInbox | CallAcknowledgeRequest | CallSubmitReceipt | CallReadReceipts
    | CallSubmitCancellation | CallReadCancellations

  /** The position of the first request with this id, or -1. */
  function PositionOf(requests: seq<Request>, id: string, n: nat): (k: int)
    requires n <= |requests|
    ensures -1 <= k < n
    ensures k >= 0 ==> requests[k].id == id && forall i :: 0 <= i < k ==> requests[i].id != id
    ensures k < 0 ==> forall i :: 0 <= i < n ==> requests[i].id != id
  {
    if n == 0 then -1
    else if PositionOf(requests, id, n - 1) >= 0 then PositionOf(requests, id, n - 1)
    else if requests[n - 1].id == id then n - 1 else -1
  }

  predicate UniqueRequests(requests: seq<Request>) {
    forall i, j :: 0 <= i < j < |requests| ==> requests[i].id != requests[j].id
  }

  predicate UniqueReceipts(receipts: seq<Receipt>) {
    forall i, j :: 0 <= i < j < |receipts| ==> receipts[i].requestId != receipts[j].requestId || receipts[i].revision != receipts[j].revision
  }

  predicate HasReceipt(receipts: seq<Receipt>, requestId: string, revision: nat) {
    exists i :: 0 <= i < |receipts| && receipts[i].requestId == requestId && receipts[i].revision == revision
  }

  predicate HasCancellation(cancellations: seq<StoredCancellation>, id: string) {
    exists i :: 0 <= i < |cancellations| && cancellations[i].cancellation.id == id
  }

  class SharedDelegationExchange {
    var requests: seq<Request>
    var receipts: seq<Receipt>
    var cancellations: seq<StoredCancellation>
    var calls: seq<Call>

    ghost predicate Valid()
      reads this
    {
      && UniqueRequests(requests) && UniqueReceipts(receipts)
      && forall i, j :: 0 <= i < j < |cancellations| ==> cancellations[i].cancellation.id != cancellations[j].cancellation.id
    }

    constructor ()
      ensures Valid() && requests == [] && receipts == [] && cancellations == [] && calls == []
    {
      requests, receipts, cancellations, calls := [], [], [], [];
    }

    /** The first request under an id is kept for ever; later ones are only compared with it. */
    method SubmitRequest(request: Request) returns (reply: Reply)
      requires Valid()
      modifies this`requests, this`calls
      ensures calls == old(calls) + [CallSubmitRequest]
      ensures Valid() && old(requests) <= requests
      ensures reply == Accepted <==> forall q :: q in old(requests) ==> q.id != request.id
      ensures requests == if reply == Accepted then old(requests) + [request] else old(requests)
      ensures reply == Duplicate <==> exists q :: q in old(requests) && q.id == request.id && q.digest == request.digest
    {
      calls := calls + [CallSubmitRequest];
      var k := PositionOf(requests, request.id, |requests|);
      if k >= 0 {
        reply := if requests[k].digest == request.digest then Duplicate else Divergent;
      } else {
        requests := requests + [request];
        reply := Accepted;
      }
    }

    method ReadInbox(instance: string, workspace: string) returns (inbox: seq<Request>)
      modifies this`calls
      ensures calls == old(calls) + [CallReadInbox]
      ensures inbox == Keep(requests, (x: Request) => x.destinationInstance == instance && x.destinationWorkspace == workspace)
    {
      calls := calls + [CallReadInbox];
      var keep := (x: Request) => x.destinationInstance == instance && x.destinationWorkspace == workspace;
      inbox := [];
      for i := 0 to |requests|
        invariant inbox == KeepFirst(requests, i, keep)
      {
        if keep(requests[i]) {
          inbox := inbox + [requests[i]];
        }
      }
    }

    /** An acknowledgement is only noted. */
    method AcknowledgeRequest()
      modifies this`calls
      ensures calls == old(calls) + [CallAcknowledgeRequest]
    {
      calls := calls + [CallAcknowledgeRequest];
    }

    /** One receipt is kept for each request and revision: the first. */
    method SubmitReceipt(receipt: Receipt) returns (reply: Reply)
      requires Valid()
      modifies this`receipts, this`calls
      ensures calls == old(calls) + [CallSubmitReceipt]
      ensures Valid() && old(receipts) <= receipts
      ensures reply == if HasReceipt(old(receipts), receipt.requestId, receipt.revision) then Duplicate else Accepted
      ensures receipts == if reply == Accepted then old(receipts) + [receipt] else old(receipts)
    {
      calls := calls + [CallSubmitReceipt];
      if HasReceipt(receipts, receipt.requestId, receipt.revision) {
        reply := Duplicate;
      } else {
        receipts := receipts + [receipt];
        reply := Accepted;
      }
    }

    method ReadReceipts(instance: string, workspace: string) returns (mine: seq<Receipt>)
      modifies this`calls
      ensures calls == old(calls) + [CallReadReceipts]
      ensures mine == Keep(receipts, (x: Receipt) => x.sourceInstance == instance && x.sourceWorkspace == workspace)
    {
      calls := calls + [CallReadReceipts];
      var keep := (x: Receipt) => x.sourceInstance == instance && x.sourceWorkspace == workspace;
      mine := [];
      for i := 0 to |receipts|
        invariant mine == KeepFirst(receipts, i, keep)
      {
        if keep(receipts[i]) {
          mine := mine + [receipts[i]];
        }
      }
    }

    /** A cancellation needs a known request and is stored once, addressed to that request's destination. */
    method SubmitCancellation(c: Cancellation) returns (known: bool)
      requires Valid()
      modifies this`cancellations, this`calls
      ensures Valid() && calls == old(calls) + [CallSubmitCancellation]
      ensures known <==> exists q :: q in requests && q.id == c.requestId
      ensures !known || HasCancellation(old(cancellations), c.id) ==> cancellations == old(cancellations)
      ensures forall q :: q in requests && q.id == c.requestId && !HasCancellation(old(cancellations), c.id) ==>
        cancellations == old(cancellations) + [StoredCancellation(c, q.destinationInstance, q.destinationWorkspace, q.sequence)]
    {
      calls := calls + [CallSubmitCancellation];
      var k := PositionOf(requests, c.requestId, |requests|);
      if k < 0 {
        return false;
      }
      if !HasCancellation(cancellations, c.id) {
        var stored := StoredCancellation(c, requests[k].destinationInstance, requests[k].destinationWorkspace, requests[k].sequence);
        cancellations := cancellations + [stored];
      }
      known := true;
    }

    method ReadCancellations(instance: string, workspace: string) returns (mine: seq<StoredCancellation>)
      modifies this`calls
      ensures calls == old(calls) + [CallReadCancellations]
      ensures mine == Keep(cancellations, (x: StoredCancellation) => x.destinationInstance == instance && x.destinationWorkspace == workspace)
    {
      calls := calls + [CallReadCancellations];
      var keep := (x: StoredCancellation) => x.destinationInstance == instance && x.destinationWorkspace == workspace;
      mine := [];
      for i := 0 to |cancellations|
        invariant mine == KeepFirst(cancellations, i, keep)
      {
        if keep(cancellations[i]) {
          mine := mine + [cancellations[i]];
        }
      }
    }
  }

  // ---------------------------------------------------------------- the sequence chain

  datatype Class = Taken | Repeated | Diverged | Gap

  /** How the destination classifies a request of an active peer binding against what it already holds. */
  function Classify(inbound: seq<Request>, r: Request): Class {
    var k := PositionOf(inbound, r.id, |inbound|);
    var last := if inbound == [] then 0 else inbound[|inbound| - 1].sequence;
    if k >= 0 then if inbound[k].digest == r.digest then Repeated else Diverged
    else if r.sequence <= last then Diverged
    else if r.sequence > last + 1 then Gap
    else if last == 0 then if r.previous.Some? then Diverged else Taken
    else if r.previous != Some(inbound[|inbound| - 1].digest) then Diverged
    else Taken
  }

  function Pull(inbound: seq<Request>, rows: seq<Request>, n: nat): seq<Request>
    requires n <= |rows|
  {
    if n == 0 then inbound
    else
      var before := Pull(inbound, rows, n - 1);
      if Classify(before, rows[n - 1]) == Taken then before + [rows[n - 1]] else before
  }

  /** What a source creates is numbered from one, without gaps. */
  predicate Chain(outbound: seq<Request>) {
    forall i :: 0 <= i < |outbound| ==> outbound[i].sequence == i + 1
  }

  predicate OnChain(outbound: seq<Request>, r: Request) {
    1 <= r.sequence <= |outbound| && outbound[r.sequence - 1] == r
  }

  /** The last accepted sequence number is the length of the prefix, so the next request is the next of the chain. */
  lemma TakenIsNext(outbound: seq<Request>, n: nat, r: Request)
    requires Chain(outbound) && n <= |outbound| && OnChain(outbound, r) && Classify(outbound[..n], r) == Taken
    ensures n < |outbound| && outbound[..n] + [r] == outbound[..n + 1]
  {
    var last := if n == 0 then 0 else outbound[..n][n - 1].sequence;
    assert last == n && r.sequence == n + 1;
  }

  /** Rows that all come from the source, in any order and number, leave the destination with a prefix of what
      the source created. */
  lemma {:induction false} InboundIsPrefix(inbound: seq<Request>, rows: seq<Request>, n: nat, outbound: seq<Request>)
    requires Chain(outbound) && inbound <= outbound && n <= |rows|
    requires forall i :: 0 <= i < |rows| ==> OnChain(outbound, rows[i])
    ensures Pull(inbound, rows, n) <= outbound && |inbound| <= |Pull(inbound, rows, n)|
  {
    if n > 0 {
      InboundIsPrefix(inbound, rows, n - 1, outbound);
      var before := Pull(inbound, rows, n - 1);
      assert before == outbound[..|before|];
      if Classify(before, rows[n - 1]) == Taken {
        TakenIsNext(outbound, |before|, rows[n - 1]);
      }
    }
  }

  predicate LinkedAt(inbound: seq<Request>, i: int) {
    0 <= i < |inbound| ==>
      inbound[i].sequence == i + 1 && inbound[i].previous == if i == 0 then None else Some(inbound[i - 1].digest)
  }

  /** Whatever rows arrive, from whomever: what is held stays contiguous, linked by digest, with unique ids. */
  lemma {:induction false} PullKeepsLinked(inbound: seq<Request>, rows: seq<Request>, n: nat)
    requires n <= |rows| && UniqueRequests(inbound) && forall i {:trigger LinkedAt(inbound, i)} :: LinkedAt(inbound, i)
    ensures var next := Pull(inbound, rows, n);
      inbound <= next && UniqueRequests(next) && forall i {:trigger LinkedAt(next, i)} :: LinkedAt(next, i)
  {
    if n > 0 {
      PullKeepsLinked(inbound, rows, n - 1);
      var before := Pull(inbound, rows, n - 1);
      var next := Pull(inbound, rows, n);
      assert LinkedAt(before, |before| - 1);
      forall i {:trigger LinkedAt(next, i)} ensures LinkedAt(next, i) {
        assert LinkedAt(before, i);
      }
    }
  }

  // ---------------------------------------------------------------- the exact classification, and catching up

  ghost predicate Linked(requests: seq<Request>) {
    forall i {:trigger LinkedAt(requests, i)} :: LinkedAt(requests, i)
  }

  /** Something is held under the id of the request. */
  predicate Held(inbound: seq<Request>, id: string) {
    exists i :: 0 <= i < |inbound| && inbound[i].id == id
  }

  /** The digest that the next request must name. */
  function LastDigest(inbound: seq<Request>): Option<Digest> {
    if inbound == [] then None else Some(inbound[|inbound| - 1].digest)
  }

  /**
   The answer to a request, from what is held: taken exactly when it is new, carries the next number and names the last
   digest; repeated exactly when it is held under its id with its digest; a gap exactly when it is new and its number lies
   ahead; diverged in every other case, and those are another digest under its id, a number already passed, or the next
   number with another predecessor.
   */
  lemma ClassifyIff(inbound: seq<Request>, r: Request)
    requires UniqueRequests(inbound) && Linked(inbound)
    ensures Classify(inbound, r) == Taken <==>
      !Held(inbound, r.id) && r.sequence == |inbound| + 1 && r.previous == LastDigest(inbound)
    ensures Classify(inbound, r) == Repeated <==> exists i :: 0 <= i < |inbound| && inbound[i].id == r.id && inbound[i].digest == r.digest
    ensures Classify(inbound, r) == Gap <==> !Held(inbound, r.id) && r.sequence > |inbound| + 1
    ensures Classify(inbound, r) == Diverged <==>
      || (exists i :: 0 <= i < |inbound| && inbound[i].id == r.id && inbound[i].digest != r.digest)
      || (!Held(inbound, r.id) && r.sequence <= |inbound|)
      || (!Held(inbound, r.id) && r.sequence == |inbound| + 1 && r.previous != LastDigest(inbound))
  {
    assert LinkedAt(inbound, |inbound| - 1);
    var k := PositionOf(inbound, r.id, |inbound|);
    if k >= 0 {
      forall i | 0 <= i < |inbound| && inbound[i].id == r.id ensures i == k {
      }
    }
  }

  lemma PrefixIsLinked(outbound: seq<Request>, n: nat)
    requires n <= |outbound| && Linked(outbound) && UniqueRequests(outbound)
    ensures Linked(outbound[..n]) && UniqueRequests(outbound[..n])
  {
    forall i {:trigger LinkedAt(outbound[..n], i)} ensures LinkedAt(outbound[..n], i) {
      assert LinkedAt(outbound, i);
    }
  }

  /** The next request of the chain is taken; an earlier one is repeated. */
  lemma NextOfChain(outbound: seq<Request>, inbound: seq<Request>, k: nat)
    requires Linked(outbound) && UniqueRequests(outbound) && inbound <= outbound && k <= |inbound| && k < |outbound|
    ensures Classify(inbound, outbound[k]) == if k == |inbound| then Taken else Repeated
  {
    PrefixIsLinked(outbound, |inbound|);
    assert inbound == outbound[..|inbound|];
    ClassifyIff(inbound, outbound[k]);
    assert LinkedAt(outbound, k);
    if k < |inbound| {
      assert inbound[k] == outbound[k];
    } else {
      forall i | 0 <= i < |inbound| ensures inbound[i].id != outbound[k].id {
        assert outbound[i].id != outbound[k].id;
      }
    }
  }

  function Farther(a: nat, b: nat): nat {
    if a <= b then b else a
  }

  /** What is held is the beginning of the chain, up to `n`. */
  predicate HoldsUpTo(inbound: seq<Request>, outbound: seq<Request>, n: nat) {
    |inbound| == n && inbound <= outbound
  }

  lemma TakeNext(outbound: seq<Request>, inbound: seq<Request>, k: nat, next: seq<Request>)
    requires Linked(outbound) && UniqueRequests(outbound) && inbound <= outbound && k <= |inbound| && k < |outbound|
    requires next == if Classify(inbound, outbound[k]) == Taken then inbound + [outbound[k]] else inbound
    ensures HoldsUpTo(next, outbound, Farther(|inbound|, k + 1))
  {
    NextOfChain(outbound, inbound, k);
  }

  /** Pulling the first `n` rows of a stretch of the chain that begins no later than what is held ends makes the destination
      hold the chain up to the end of the stretch: everything in order is taken, nothing is taken twice. */
  lemma {:induction false} PullCatchesUp(outbound: seq<Request>, inbound: seq<Request>, lo: nat, rows: seq<Request>, n: nat)
    requires Linked(outbound) && UniqueRequests(outbound) && inbound <= outbound && lo <= |inbound|
    requires n <= |rows| && lo + n <= |outbound| && forall i :: 0 <= i < n ==> rows[i] == outbound[lo + i]
    ensures HoldsUpTo(Pull(inbound, rows, n), outbound, Farther(|inbound|, lo + n))
  {
    if n > 0 {
      PullCatchesUp(outbound, inbound, lo, rows, n - 1);
      TakeNext(outbound, Pull(inbound, rows, n - 1), lo + n - 1, Pull(inbound, rows, n));
    }
  }

  /** In-order delivery takes everything. */
  lemma InOrderIsTaken(outbound: seq<Request>, n: nat, m: nat)
    requires Linked(outbound) && UniqueRequests(outbound) && n <= m <= |outbound|
    ensures Pull(outbound[..n], outbound[n..m], m - n) == outbound[..m]
  {
    PullCatchesUp(outbound, outbound[..n], n, outbound[n..m], m - n);
  }
}
