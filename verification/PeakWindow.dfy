/** "Peak Window": the largest reading of every k consecutive ones, from a deque of candidates. */
module PeakWindow {

  /** The largest of the k readings from position s on. */
  ghost predicate IsPeak(a: seq<int>, k: nat, s: nat, peak: int) {
    s + k <= |a| && peak in a[s..s + k] && forall p :: s <= p < s + k ==> a[p] <= peak
  }

  /** The candidates, oldest first: later positions with smaller readings. */
  ghost predicate Descending(a: seq<int>, window: seq<nat>)
    requires InRange(a, window)
  {
    forall i, j :: 0 <= i < j < |window| ==> window[i] < window[j] && a[window[i]] > a[window[j]]
  }

  predicate InRange(a: seq<int>, window: seq<nat>) {
    forall j :: 0 <= j < |window| ==> window[j] < |a|
  }

  /** Some candidate outlives position p and is at least as large. */
  ghost predicate Covered(a: seq<int>, window: seq<nat>, p: nat)
    requires p < |a| && InRange(a, window)
  {
    exists j :: 0 <= j < |window| && p <= window[j] && a[p] <= a[window[j]]
  }

  /** The readings from `first` up to n are covered by candidates among them, or are at most `value`. */
  ghost predicate Waiting(a: seq<int>, window: seq<nat>, first: nat, n: nat, value: int)
    requires n <= |a| && InRange(a, window)
  {
    && Descending(a, window)
    && (forall j :: 0 <= j < |window| ==> first <= window[j] < n)
    && (forall p :: first <= p < n ==> Covered(a, window, p) || a[p] <= value)
  }

  ghost predicate Candidates(a: seq<int>, window: seq<nat>, first: nat, n: nat)
    requires n <= |a| && InRange(a, window)
  {
    && Descending(a, window)
    && (forall j :: 0 <= j < |window| ==> first <= window[j] < n)
    && (forall p :: first <= p < n ==> Covered(a, window, p))
  }

  lemma Shorter(a: seq<int>, window: seq<nat>, lo: nat, hi: nat)
    requires InRange(a, window) && Descending(a, window) && lo <= hi <= |window|
    ensures InRange(a, window[lo..hi]) && Descending(a, window[lo..hi])
  {
  }

  lemma StillCovered(a: seq<int>, window: seq<nat>, lo: nat, hi: nat, p: nat)
    requires lo <= hi <= |window| && InRange(a, window) && InRange(a, window[lo..hi])
    requires p < |a| && Covered(a, window, p)
    requires forall j :: 0 <= j < lo ==> window[j] < p
    requires forall j :: hi <= j < |window| ==> a[window[j]] < a[p]
    ensures Covered(a, window[lo..hi], p)
  {
    var j :| 0 <= j < |window| && p <= window[j] && a[p] <= a[window[j]];
    assert window[lo..hi][j - lo] == window[j];
  }

  lemma PopSmaller(a: seq<int>, window: seq<nat>, first: nat, n: nat, value: int)
    requires n <= |a| && InRange(a, window) && Waiting(a, window, first, n, value)
    requires window != [] && a[window[|window| - 1]] <= value
    ensures InRange(a, window[..|window| - 1]) && Waiting(a, window[..|window| - 1], first, n, value)
  {
    var last := |window| - 1;
    assert window[..last] == window[0..last];
    Shorter(a, window, 0, last);
    hide Descending, Covered;
    forall p: nat | first <= p < n && a[p] > value ensures Covered(a, window[..last], p) {
      StillCovered(a, window, 0, last, p);
    }
  }

  lemma PushKeeps(a: seq<int>, window: seq<nat>, first: nat, n: nat)
    requires first <= n < |a| && InRange(a, window) && Waiting(a, window, first, n, a[n])
    requires window == [] || a[window[|window| - 1]] > a[n]
    ensures InRange(a, window + [n]) && Descending(a, window + [n])
  {
    hide Covered;
    forall i | 0 <= i < |window| ensures window[i] < n && a[window[i]] > a[n] {
      assert i < |window| - 1 ==> a[window[i]] > a[window[|window| - 1]];
    }
  }

  lemma Push(a: seq<int>, window: seq<nat>, first: nat, n: nat)
    requires first <= n < |a| && InRange(a, window) && Waiting(a, window, first, n, a[n])
    requires window == [] || a[window[|window| - 1]] > a[n]
    ensures InRange(a, window + [n]) && Candidates(a, window + [n], first, n + 1)
  {
    PushKeeps(a, window, first, n);
    var more := window + [n];
    assert more[|window|] == n;
    forall p: nat | first <= p < n + 1 ensures Covered(a, more, p) {
      if p < n && Covered(a, window, p) {
        var j :| 0 <= j < |window| && p <= window[j] && a[p] <= a[window[j]];
        assert more[j] == window[j];
      }
    }
    hide Descending, Covered;
  }

  /** The front is dropped when its position leaves the window. */
  lemma DropFront(a: seq<int>, window: seq<nat>, first: nat, n: nat)
    requires n <= |a| && InRange(a, window) && Candidates(a, window, first, n)
    requires window != [] && window[0] <= first
    ensures InRange(a, window[1..]) && Candidates(a, window[1..], first + 1, n)
  {
    var all := |window|;
    assert window[1..] == window[1..all];
    Shorter(a, window, 1, all);
    assert forall j :: 0 < j < all ==> window[0] < window[j];
    hide Descending, Covered;
    forall p: nat | first + 1 <= p < n ensures Covered(a, window[1..], p) {
      StillCovered(a, window, 1, all, p);
    }
  }

  /** No candidate leaves the window. */
  lemma KeepFront(a: seq<int>, window: seq<nat>, first: nat, n: nat)
    requires n <= |a| && InRange(a, window) && Candidates(a, window, first, n)
    requires window == [] || window[0] > first
    ensures Candidates(a, window, first + 1, n)
  {
    forall j | 0 < j < |window| ensures first < window[j] {
      assert window[0] < window[j];
    }
    hide Descending, Covered;
  }

  lemma FrontIsPeak(a: seq<int>, window: seq<nat>, first: nat, n: nat)
    requires first < n <= |a| && InRange(a, window) && Candidates(a, window, first, n)
    ensures window != [] && IsPeak(a, n - first, first, a[window[0]])
    ensures window[0] >= first
  {
    assert Covered(a, window, first);
    forall p: nat | first <= p < n ensures a[p] <= a[window[0]] {
      assert Covered(a, window, p);
    }
    assert a[first..n][window[0] - first] == a[window[0]];
  }

  ghost function First(i: nat, k: nat): nat {
    if i < k then 0 else i - k
  }

  /** One reading: candidates that are not larger are dropped, and the front if it is too old. */
  method Advance(a: seq<int>, k: nat, window: seq<nat>, i: nat) returns (next: seq<nat>)
    requires k > 0 && i < |a| && InRange(a, window) && Candidates(a, window, First(i, k), i)
    ensures InRange(a, next) && Candidates(a, next, First(i + 1, k), i + 1)
  {
    ghost var first := First(i, k);
    next := window;
    NothingNew(a, next, first, i, a[i]);
    Ends(a, next);
    hide Waiting, Candidates, Descending, Covered, InRange;
    while next != [] && a[next[|next| - 1]] <= a[i]
      invariant InRange(a, next) && Waiting(a, next, first, i, a[i])
      invariant next != [] ==> next[|next| - 1] < |a|
    {
      PopSmaller(a, next, first, i, a[i]);
      next := next[..|next| - 1];
      Ends(a, next);
    }
    Push(a, next, first, i);
    next := next + [i];
    Drop(a, next, k, i);
    if next[0] <= i - k {
      next := next[1..];
    }
  }

  lemma Drop(a: seq<int>, window: seq<nat>, k: nat, i: nat)
    requires k > 0 && i < |a| && InRange(a, window) && Candidates(a, window, First(i, k), i + 1)
    ensures window != []
    ensures var rest := if window[0] <= i - k then window[1..] else window;
      InRange(a, rest) && Candidates(a, rest, First(i + 1, k), i + 1)
  {
    hide Candidates, InRange, IsPeak;
    FrontIsPeak(a, window, First(i, k), i + 1);
    if i >= k {
      if window[0] <= i - k { DropFront(a, window, i - k, i + 1); } else { KeepFront(a, window, i - k, i + 1); }
    }
  }

  method Solve(a: seq<int>, k: nat) returns (out: seq<int>)
    requires 1 <= k <= |a|
    ensures |out| == |a| - k + 1
    ensures forall s :: 0 <= s < |out| ==> IsPeak(a, k, s, out[s])
  {
    var window: seq<nat> := [];
    out := [];
    assert Candidates(a, window, 0, 0);
    hide IsPeak, Candidates, InRange;
    for i := 0 to |a|
      invariant InRange(a, window) && Candidates(a, window, First(i, k), i)
      invariant |out| == (if i < k then 0 else i - k + 1)
      invariant forall s :: 0 <= s < |out| ==> IsPeak(a, k, s, out[s])
    {
      window := Advance(a, k, window, i);
      if i >= k - 1 {
        FrontIsPeak(a, window, i + 1 - k, i + 1);
        Ends(a, window);
        out := out + [a[window[0]]];
      }
    }
  }

  lemma Ends(a: seq<int>, window: seq<nat>)
    requires InRange(a, window)
    ensures window != [] ==> window[0] < |a| && window[|window| - 1] < |a|
  {
  }

  lemma NothingNew(a: seq<int>, window: seq<nat>, first: nat, n: nat, value: int)
    requires n <= |a| && InRange(a, window) && Candidates(a, window, first, n)
    ensures Waiting(a, window, first, n, value)
  {
  }
}
