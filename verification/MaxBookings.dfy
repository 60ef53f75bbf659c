/** "Max Bookings": accepting by earliest end accepts as many requests as possible. */
module MaxBookings {
  import opened PythonSorted
  import opened SetFacts

  datatype Request = Request(start: int, end: int)

  /** The promise of the problem statement. */
  predicate ValidInput(requests: seq<Request>) {
    forall i :: 0 <= i < |requests| ==> 0 <= requests[i].start < requests[i].end
  }

  // ----- what the statement asks for -----

  /** The half-open times do not overlap. */
  predicate Apart(a: Request, b: Request) {
    a.end <= b.start || b.end <= a.start
  }

  ghost predicate NoClash(requests: seq<Request>, accepted: set<nat>) {
    && (forall i :: i in accepted ==> i < |requests|)
    && (forall i, j :: i in accepted && j in accepted && i != j ==> Apart(requests[i], requests[j]))
  }

  ghost predicate IsMost(requests: seq<Request>, count: nat) {
    && (exists accepted :: NoClash(requests, accepted) && |accepted| == count)
    && (forall accepted :: NoClash(requests, accepted) ==> |accepted| <= count)
  }

  // ----- the sweep -----

  /** The requests in the order of `sorted(..., key=(end, start))`. */
  ghost predicate ByEnd(requests: seq<Request>, order: seq<nat>) {
    && |order| == |requests|
    && (forall k :: 0 <= k < |order| ==> order[k] < |requests|)
    && (forall i :: 0 <= i < |requests| ==> i in order)
    && (forall a, b :: 0 <= a < b < |order| ==>
          order[a] != order[b] && requests[order[a]].end <= requests[order[b]].end)
  }

  ghost predicate AmongFirst(order: seq<nat>, k: nat, i: nat)
    requires k <= |order|
  {
    i in order[..k]
  }

  /** The latest end of a selection reaches `free`. */
  ghost predicate EndsLate(requests: seq<Request>, accepted: set<nat>, free: int) {
    exists i :: i in accepted && i < |requests| && requests[i].end >= free
  }

  /** Among the first k requests in order: no selection has more than `count` members, and none with exactly `count`
      members is over before `free`. */
  ghost predicate StaysAhead(requests: seq<Request>, order: seq<nat>, k: nat, count: nat, free: int) {
    k <= |order|
    && forall accepted :: NoClash(requests, accepted) && (forall i :: i in accepted ==> AmongFirst(order, k, i)) ==>
         |accepted| <= count && (|accepted| == count > 0 ==> EndsLate(requests, accepted, free))
  }

  /** `free` is the end of the request accepted last. */
  ghost predicate FreeFits(requests: seq<Request>, order: seq<nat>, k: nat, count: nat, free: int) {
    && k <= |order| && ByEnd(requests, order)
    && (count == 0 ==> free == -1_000_000_000_000_000_000)
    && (count > 0 ==> exists j :: 0 <= j < k && requests[order[j]].end == free)
  }

  lemma AmongNext(order: seq<nat>, k: nat, i: nat)
    requires k < |order|
    ensures AmongFirst(order, k + 1, i) <==> AmongFirst(order, k, i) || i == order[k]
  {
    assert order[..k + 1] == order[..k] + [order[k]];
  }

  /** Whatever else is accepted is over when the request with the latest end begins. */
  lemma OthersBefore(requests: seq<Request>, order: seq<nat>, k: nat, accepted: set<nat>, i: nat)
    requires ValidInput(requests) && k < |order| && ByEnd(requests, order) && NoClash(requests, accepted)
    requires i in accepted && order[k] in accepted && i != order[k] && AmongFirst(order, k + 1, i)
    ensures AmongFirst(order, k, i) && requests[i].end <= requests[order[k]].start
  {
    AmongNext(order, k, i);
    var j :| 0 <= j < k && order[j] == i;
    assert Apart(requests[i], requests[order[k]]);
  }

  /** The exchange argument for one selection that uses the next request. */
  lemma UsesNext(requests: seq<Request>, order: seq<nat>, k: nat, count: nat, free: int, accepted: set<nat>)
    requires ValidInput(requests) && k < |order| && FreeFits(requests, order, k, count, free)
    requires StaysAhead(requests, order, k, count, free)
    requires NoClash(requests, accepted) && order[k] in accepted
    requires forall i :: i in accepted ==> AmongFirst(order, k + 1, i)
    ensures requests[order[k]].start >= free ==> |accepted| <= count + 1
    ensures requests[order[k]].start < free ==> |accepted| <= count && requests[order[k]].end >= free
  {
    var next := requests[order[k]];
    var others := accepted - {order[k]};
    assert |accepted| == |others| + 1;
    forall i | i in others ensures AmongFirst(order, k, i) && requests[i].end <= next.start {
      OthersBefore(requests, order, k, accepted, i);
    }
    assert NoClash(requests, others);
    if next.start < free {
      assert count > 0;
      var j :| 0 <= j < k && requests[order[j]].end == free;
    }
  }

  lemma AheadNext(requests: seq<Request>, order: seq<nat>, k: nat, count: nat, free: int)
    requires ValidInput(requests) && k < |order| && FreeFits(requests, order, k, count, free)
    requires StaysAhead(requests, order, k, count, free)
    ensures var next := requests[order[k]];
            if next.start >= free then StaysAhead(requests, order, k + 1, count + 1, next.end)
            else StaysAhead(requests, order, k + 1, count, free)
  {
    var next := requests[order[k]];
    var (count', free') := if next.start >= free then (count + 1, next.end) else (count, free);
    forall accepted | NoClash(requests, accepted) && (forall i :: i in accepted ==> AmongFirst(order, k + 1, i))
      ensures |accepted| <= count' && (|accepted| == count' > 0 ==> EndsLate(requests, accepted, free'))
    {
      if order[k] in accepted {
        UsesNext(requests, order, k, count, free, accepted);
      } else {
        forall i | i in accepted ensures AmongFirst(order, k, i) { AmongNext(order, k, i); }
      }
    }
  }

  // ----- the reference solution -----

  /** The positions of the requests sorted by (end, start). */
  function EndOrder(requests: seq<Request>): (order: seq<nat>)
    ensures ByEnd(requests, order)
  {
    var keys := seq(|requests|, i requires 0 <= i < |requests| => [requests[i].end, requests[i].start]);
    StableOrderByEnd(requests, keys, StableOrder(keys));
    StableOrder(keys)
  }

  lemma StableOrderByEnd(requests: seq<Request>, keys: seq<seq<int>>, order: seq<nat>)
    requires |keys| == |requests| && IsStableOrder(keys, |requests|, order)
    requires forall i :: 0 <= i < |requests| ==> keys[i] == [requests[i].end, requests[i].start]
    ensures ByEnd(requests, order)
  {
    forall a, b | 0 <= a < b < |order|
      ensures order[a] != order[b] && requests[order[a]].end <= requests[order[b]].end
    {
      assert Ahead(keys, order[a], order[b]);
    }
  }

  method Solve(requests: seq<Request>) returns (count: nat)
    requires ValidInput(requests)
    ensures IsMost(requests, count)
  {
    hide FreeFits, StaysAhead, Chosen, IsMost;
    var order := EndOrder(requests);
    count := 0;
    var freeAt := -1_000_000_000_000_000_000;
    ghost var accepted: set<nat> := {};
    NothingYet(requests, order);
    for k := 0 to |order|
      invariant FreeFits(requests, order, k, count, freeAt) && StaysAhead(requests, order, k, count, freeAt)
      invariant Chosen(requests, order, k, accepted, count, freeAt)
    {
      var Request(start, end) := requests[order[k]];
      AheadNext(requests, order, k, count, freeAt);
      FreeNext(requests, order, k, count, freeAt);
      ChosenNext(requests, order, k, count, freeAt, accepted);
      if start >= freeAt {
        count := count + 1;
        freeAt := end;
        accepted := accepted + {order[k]};
      }
    }
    Finish(requests, order, count, freeAt, accepted);
  }

  /** The requests accepted so far: they do not clash, and none of them ends after `free`. */
  ghost predicate Chosen(requests: seq<Request>, order: seq<nat>, k: nat, accepted: set<nat>, count: nat, free: int) {
    && k <= |order| && NoClash(requests, accepted) && |accepted| == count
    && forall i :: i in accepted ==> AmongFirst(order, k, i) && requests[i].end <= free
  }

  lemma NothingYet(requests: seq<Request>, order: seq<nat>)
    requires ByEnd(requests, order)
    ensures StaysAhead(requests, order, 0, 0, -1_000_000_000_000_000_000)
    ensures FreeFits(requests, order, 0, 0, -1_000_000_000_000_000_000)
    ensures Chosen(requests, order, 0, {}, 0, -1_000_000_000_000_000_000)
  {
    assert forall i: nat :: !AmongFirst(order, 0, i);
  }

  lemma FreeNext(requests: seq<Request>, order: seq<nat>, k: nat, count: nat, free: int)
    requires k < |order| && FreeFits(requests, order, k, count, free)
    ensures FreeFits(requests, order, k + 1, count + 1, requests[order[k]].end)
    ensures FreeFits(requests, order, k + 1, count, free)
  {
  }

  /** A request that has its turn was not accepted before. */
  lemma NotYet(requests: seq<Request>, order: seq<nat>, k: nat, i: nat)
    requires k < |order| && ByEnd(requests, order) && AmongFirst(order, k, i)
    ensures i != order[k]
  {
    var j :| 0 <= j < k && order[j] == i;
  }

  lemma ChosenNext(requests: seq<Request>, order: seq<nat>, k: nat, count: nat, free: int, accepted: set<nat>)
    requires ValidInput(requests) && k < |order| && ByEnd(requests, order)
    requires Chosen(requests, order, k, accepted, count, free)
    ensures var next := requests[order[k]];
            if next.start >= free then Chosen(requests, order, k + 1, accepted + {order[k]}, count + 1, next.end)
            else Chosen(requests, order, k + 1, accepted, count, free)
  {
    hide AmongFirst;
    forall i | i in accepted ensures i != order[k] && AmongFirst(order, k + 1, i) {
      NotYet(requests, order, k, i);
      AmongNext(order, k, i);
    }
    AmongNext(order, k, order[k]);
  }

  lemma Finish(requests: seq<Request>, order: seq<nat>, count: nat, free: int, accepted: set<nat>)
    requires FreeFits(requests, order, |order|, count, free) && StaysAhead(requests, order, |order|, count, free)
    requires Chosen(requests, order, |order|, accepted, count, free)
    ensures IsMost(requests, count)
  {
    assert order[..|order|] == order;
    forall other | NoClash(requests, other) ensures |other| <= count {
      forall i | i in other ensures AmongFirst(order, |order|, i) { }
    }
  }
}
