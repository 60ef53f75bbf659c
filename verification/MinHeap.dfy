/** `heapq` through its contract: a bag of (priority, item) tuples from which the least tuple is taken. */
module MinHeap {

  type Entry = (int, nat)

  /** Python's `<=` on pairs. */
  predicate EntryLeq(a: Entry, b: Entry) {
    a.0 < b.0 || (a.0 == b.0 && a.1 <= b.1)
  }

  /** e is one of the entries and none is smaller. */
  predicate IsLeast(e: Entry, entries: multiset<Entry>) {
    e in entries && forall f :: f in entries ==> EntryLeq(e, f)
  }

  lemma {:induction false} Least(entries: multiset<Entry>) returns (e: Entry)
    requires |entries| > 0
    ensures IsLeast(e, entries)
    decreases |entries|
  {
    var x :| x in entries;
    var rest := entries - multiset{x};
    assert entries == rest + multiset{x};
    if |rest| == 0 {
      e := x;
    } else {
      var y := Least(rest);
      e := if EntryLeq(x, y) then x else y;
      forall f | f in entries ensures EntryLeq(e, f) {
        assert f == x || f in rest;
      }
    }
  }

  class Heap {
    var entries: multiset<Entry>

    constructor ()
      ensures entries == multiset{}
    {
      entries := multiset{};
    }

    method Push(e: Entry)
      modifies this
      ensures entries == old(entries) + multiset{e}
    {
      entries := entries + multiset{e};
    }

    method Pop() returns (e: Entry)
      requires |entries| > 0
      modifies this
      ensures e in old(entries) && entries == old(entries) - multiset{e}
      ensures IsLeast(e, old(entries))
    {
      ghost var least := Least(entries);
      e :| e in entries && IsLeast(e, entries);
      entries := entries - multiset{e};
    }
  }
}
