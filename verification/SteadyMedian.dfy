/** "Steady Median": the lower median after every reading, from a heap for each half of the readings. */
module SteadyMedian {
  import opened MinHeap

  // ----- what the statement asks for -----

  /** m is the j-th smallest reading: the readings fall into j that are at most m, itself one of them, and others that
      are at least m. */
  ghost predicate IsNth(readings: multiset<int>, j: nat, m: int) {
    exists low, high :: Halves(readings, low, high) && |low| == j && IsLargest(m, low) && IsBelow(m, high)
  }

  ghost predicate Halves(readings: multiset<int>, low: multiset<int>, high: multiset<int>) {
    low + high == readings
  }

  ghost predicate IsLargest(m: int, s: multiset<int>) {
    m in s && forall x :: x in s ==> x <= m
  }

  ghost predicate IsBelow(m: int, s: multiset<int>) {
    forall x :: x in s ==> m <= x
  }

  lemma PartSize(part: multiset<int>, whole: multiset<int>)
    requires part <= whole
    ensures |part| <= |whole|
  {
    assert whole == part + (whole - part);
  }

  /** There is only one j-th smallest reading. */
  lemma NthIsUnique(readings: multiset<int>, j: nat, m: int, k: int)
    requires IsNth(readings, j, m) && IsNth(readings, j, k)
    ensures m == k
  {
    if m < k { NthNotLess(readings, j, m, k); }
    if k < m { NthNotLess(readings, j, k, m); }
  }

  lemma NthNotLess(readings: multiset<int>, j: nat, m: int, k: int)
    requires IsNth(readings, j, m) && IsNth(readings, j, k)
    ensures m >= k
  {
    var low, high :| Halves(readings, low, high) && |low| == j && IsLargest(m, low) && IsBelow(m, high);
    var low', high' :| Halves(readings, low', high') && |low'| == j && IsLargest(k, low') && IsBelow(k, high');
    if m < k {
      forall x ensures (low + multiset{k})[x] <= low'[x] {
        assert readings[x] == low[x] + high[x] == low'[x] + high'[x];
        if x <= m { assert x !in high'; } else { assert x !in low; }
      }
      PartSize(low + multiset{k}, low');
    }
  }

  /** The medians asked for: after k readings the ceiling of k/2-th smallest. */
  ghost predicate IsMedian(a: seq<int>, k: nat, m: int)
    requires k <= |a|
  {
    IsNth(multiset(a[..k]), (k + 1) / 2, m)
  }

  // ----- numbers in a heap -----

  /** A heap of negated numbers has the largest number on top. */
  function Key(negated: bool, x: int): int {
    if negated then 0 - x else x
  }

  /** The heap holds the numbers, negated or not. */
  ghost predicate Holds(entries: multiset<Entry>, negated: bool, numbers: multiset<int>) {
    && |entries| == |numbers|
    && (forall x :: entries[(Key(negated, x), 0)] == numbers[x])
    && (forall e :: e in entries ==> e.1 == 0)
  }

  lemma Pushed(entries: multiset<Entry>, negated: bool, numbers: multiset<int>, x: int)
    requires Holds(entries, negated, numbers)
    ensures Holds(entries + multiset{(Key(negated, x), 0)}, negated, numbers + multiset{x})
  {
  }

  lemma Peeked(entries: multiset<Entry>, negated: bool, numbers: multiset<int>, e: Entry)
    requires Holds(entries, negated, numbers) && IsLeast(e, entries)
    ensures var top := Key(negated, e.0);
      top in numbers && if negated then IsLargest(top, numbers) else IsBelow(top, numbers)
  {
    var top := Key(negated, e.0);
    assert e == (Key(negated, top), 0);
    forall x | x in numbers ensures Key(negated, top) <= Key(negated, x) {
      assert (Key(negated, x), 0) in entries;
    }
  }

  lemma Popped(entries: multiset<Entry>, negated: bool, numbers: multiset<int>, e: Entry)
    requires Holds(entries, negated, numbers) && e in entries
    ensures Holds(entries - multiset{e}, negated, numbers - multiset{Key(negated, e.0)})
  {
    var top := Key(negated, e.0);
    assert e == (Key(negated, top), 0) && top in numbers;
  }

  // ----- the reference solution -----

  /** No number of the lower half is larger than one of the upper half. */
  ghost predicate Ordered(low: multiset<int>, high: multiset<int>) {
    forall x, y :: x in low && y in high ==> x <= y
  }

  /** The lower half is as large as the upper one, or one larger. */
  ghost predicate Balanced(low: multiset<int>, high: multiset<int>) {
    Ordered(low, high) && (|low| == |high| || |low| == |high| + 1)
  }

  lemma AddLow(low: multiset<int>, high: multiset<int>, x: int)
    requires Ordered(low, high)
    requires (|low| == 0 && |high| == 0) || exists top :: IsLargest(top, low) && x <= top
    ensures Ordered(low + multiset{x}, high) && |low + multiset{x}| == |low| + 1
    ensures low + multiset{x} + high == low + high + multiset{x}
  {
  }

  lemma AddHigh(low: multiset<int>, high: multiset<int>, x: int, top: int)
    requires Ordered(low, high) && IsLargest(top, low) && top < x
    ensures Ordered(low, high + multiset{x}) && |high + multiset{x}| == |high| + 1
    ensures low + (high + multiset{x}) == low + high + multiset{x}
  {
  }

  lemma MoveUp(low: multiset<int>, high: multiset<int>, top: int)
    requires Ordered(low, high) && IsLargest(top, low)
    ensures Ordered(low - multiset{top}, high + multiset{top})
    ensures |low - multiset{top}| == |low| - 1 && |high + multiset{top}| == |high| + 1
    ensures (low - multiset{top}) + (high + multiset{top}) == low + high
  {
    forall x, y | x in low - multiset{top} && y in high + multiset{top} ensures x <= y {
      assert x in low;
    }
  }

  lemma MoveDown(low: multiset<int>, high: multiset<int>, top: int)
    requires Ordered(low, high) && top in high && IsBelow(top, high)
    ensures Ordered(low + multiset{top}, high - multiset{top})
    ensures |low + multiset{top}| == |low| + 1 && |high - multiset{top}| == |high| - 1
    ensures (low + multiset{top}) + (high - multiset{top}) == low + high
  {
    forall x, y | x in low + multiset{top} && y in high - multiset{top} ensures x <= y {
      assert y in high;
    }
  }

  /** `-low[0]` or `high[0]`: the top without taking it. */
  method Top(heap: Heap, negated: bool, ghost numbers: multiset<int>) returns (top: int)
    requires Holds(heap.entries, negated, numbers) && |numbers| > 0
    ensures top in numbers && if negated then IsLargest(top, numbers) else IsBelow(top, numbers)
  {
    ghost var least := Least(heap.entries);
    var e :| e in heap.entries && IsLeast(e, heap.entries);
    Peeked(heap.entries, negated, numbers, e);
    top := Key(negated, e.0);
  }

  /** `heappush` of a number. */
  method PushNumber(heap: Heap, negated: bool, x: int, ghost numbers: multiset<int>)
    requires Holds(heap.entries, negated, numbers)
    modifies heap
    ensures Holds(heap.entries, negated, numbers + multiset{x})
  {
    Pushed(heap.entries, negated, numbers, x);
    heap.Push((Key(negated, x), 0));
  }

  /** `heappop` of a number. */
  method PopNumber(heap: Heap, negated: bool, ghost numbers: multiset<int>) returns (top: int)
    requires Holds(heap.entries, negated, numbers) && |numbers| > 0
    modifies heap
    ensures top in numbers && if negated then IsLargest(top, numbers) else IsBelow(top, numbers)
    ensures Holds(heap.entries, negated, numbers - multiset{top})
  {
    ghost var before := heap.entries;
    var e := heap.Pop();
    Peeked(before, negated, numbers, e);
    Popped(before, negated, numbers, e);
    top := Key(negated, e.0);
  }

  /** A reading goes into the half it belongs to. */
  method Insert(low: Heap, high: Heap, x: int, ghost l: multiset<int>, ghost h: multiset<int>)
    returns (ghost l': multiset<int>, ghost h': multiset<int>)
    requires low != high && Holds(low.entries, true, l) && Holds(high.entries, false, h) && Balanced(l, h)
    modifies low, high
    ensures Holds(low.entries, true, l') && Holds(high.entries, false, h') && Ordered(l', h')
    ensures l' + h' == l + h + multiset{x} && |l'| + |h'| == |l| + |h| + 1
    ensures |l| <= |l'| <= |l| + 1
  {
    hide Holds, Ordered;
    HeapSize(low.entries, true, l);
    if |low.entries| == 0 {
      AddLow(l, h, x);
      PushNumber(low, true, x, l);
      return l + multiset{x}, h;
    }
    var top := Top(low, true, l);
    if x <= top {
      AddLow(l, h, x);
      PushNumber(low, true, x, l);
      return l + multiset{x}, h;
    }
    AddHigh(l, h, x, top);
    PushNumber(high, false, x, h);
    return l, h + multiset{x};
  }

  lemma HeapSize(entries: multiset<Entry>, negated: bool, numbers: multiset<int>)
    requires Holds(entries, negated, numbers)
    ensures |entries| == |numbers|
  {
  }

  /** One reading, and one number over if a half is now too large. */
  method Receive(low: Heap, high: Heap, x: int, ghost l: multiset<int>, ghost h: multiset<int>)
    returns (ghost l': multiset<int>, ghost h': multiset<int>)
    requires low != high && Holds(low.entries, true, l) && Holds(high.entries, false, h) && Balanced(l, h)
    modifies low, high
    ensures Holds(low.entries, true, l') && Holds(high.entries, false, h') && Balanced(l', h')
    ensures l' + h' == l + h + multiset{x} && |l'| + |h'| == |l| + |h| + 1
  {
    l', h' := Insert(low, high, x, l, h);
    HeapSize(low.entries, true, l');
    HeapSize(high.entries, false, h');
    hide Holds, Ordered, IsLargest, IsBelow;
    if |low.entries| > |high.entries| + 1 {
      var moved := PopNumber(low, true, l');
      MoveUp(l', h', moved);
      PushNumber(high, false, moved, h');
      l', h' := l' - multiset{moved}, h' + multiset{moved};
    } else if |high.entries| > |low.entries| {
      var moved := PopNumber(high, false, h');
      MoveDown(l', h', moved);
      PushNumber(low, true, moved, l');
      l', h' := l' + multiset{moved}, h' - multiset{moved};
    }
  }

  /** Both halves together are the first k readings. */
  ghost predicate Split(a: seq<int>, k: nat, low: multiset<int>, high: multiset<int>) {
    k <= |a| && Halves(multiset(a[..k]), low, high) && |low| + |high| == k && Balanced(low, high)
  }

  lemma TopIsMedian(a: seq<int>, k: nat, low: multiset<int>, high: multiset<int>, top: int)
    requires 0 < k && Split(a, k, low, high) && IsLargest(top, low)
    ensures IsMedian(a, k, top)
  {
  }

  lemma NextSplit(a: seq<int>, k: nat, l: multiset<int>, h: multiset<int>, l': multiset<int>, h': multiset<int>)
    requires k < |a| && Split(a, k, l, h)
    requires Balanced(l', h') && l' + h' == l + h + multiset{a[k]} && |l'| + |h'| == |l| + |h| + 1
    ensures Split(a, k + 1, l', h') && |l'| > 0
  {
    assert a[..k + 1] == a[..k] + [a[k]];
    hide Ordered;
  }

  method Solve(a: seq<int>) returns (out: seq<int>)
    ensures |out| == |a|
    ensures forall k :: 0 <= k < |a| ==> IsMedian(a, k + 1, out[k])
  {
    hide Holds, Split, Balanced, IsMedian, IsBelow;
    var low := new Heap();
    var high := new Heap();
    out := [];
    ghost var l, h: multiset<int> := multiset{}, multiset{};
    StartsEmpty(a);
    for k := 0 to |a|
      invariant fresh(low) && fresh(high) && low != high && |out| == k
      invariant Holds(low.entries, true, l) && Holds(high.entries, false, h) && Split(a, k, l, h)
      invariant forall j :: 0 <= j < k ==> IsMedian(a, j + 1, out[j])
    {
      SplitIsBalanced(a, k, l, h);
      ghost var l0, h0 := l, h;
      l, h := Receive(low, high, a[k], l, h);
      NextSplit(a, k, l0, h0, l, h);
      var median := Top(low, true, l);
      TopIsMedian(a, k + 1, l, h, median);
      out := out + [median];
    }
  }

  lemma StartsEmpty(a: seq<int>)
    ensures Holds(multiset{}, true, multiset{}) && Holds(multiset{}, false, multiset{})
    ensures Split(a, 0, multiset{}, multiset{})
  {
  }

  lemma SplitIsBalanced(a: seq<int>, k: nat, low: multiset<int>, high: multiset<int>)
    requires Split(a, k, low, high)
    ensures Balanced(low, high)
  {
  }
}
