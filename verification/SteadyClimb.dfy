/** "Steady Climb": the longest strictly increasing subsequence from an array of least last values. */
module SteadyClimb {

  // ----- what the statement asks for -----

  /** A selection of checkpoints, in visiting order, with strictly increasing altitudes. */
  ghost predicate IsSteady(a: seq<int>, climb: seq<nat>) {
    && (forall i :: 0 <= i < |climb| ==> climb[i] < |a|)
    && (forall i, j :: 0 <= i < j < |climb| ==> climb[i] < climb[j] && a[climb[i]] < a[climb[j]])
  }

  ghost predicate IsLongest(a: seq<int>, length: nat) {
    && (exists climb :: IsSteady(a, climb) && |climb| == length)
    && (forall climb :: IsSteady(a, climb) ==> |climb| <= length)
  }

  /** A steady climb over the first n checkpoints, told from its last checkpoint backwards. */
  ghost predicate IsClimb(a: seq<int>, n: nat, climb: seq<nat>)
    requires n <= |a|
    decreases |climb|
  {
    climb == [] ||
    var k := |climb| - 1;
    climb[k] < n && IsClimb(a, climb[k], climb[..k]) && (k > 0 ==> a[climb[k - 1]] < a[climb[k]])
  }

  lemma {:induction false} ClimbIsSteady(a: seq<int>, n: nat, climb: seq<nat>)
    requires n <= |a|
    ensures IsClimb(a, n, climb) <==> IsSteady(a, climb) && forall i :: 0 <= i < |climb| ==> climb[i] < n
    decreases |climb|
  {
    if climb != [] {
      var k := |climb| - 1;
      var front := climb[..k];
      if climb[k] < n {
        ClimbIsSteady(a, climb[k], front);
        if IsClimb(a, n, climb) {
          forall i, j | 0 <= i < j < |climb| ensures climb[i] < climb[j] && a[climb[i]] < a[climb[j]] {
            if j == k {
              assert front[i] < climb[k];
              if i < k - 1 { assert a[front[i]] < a[front[k - 1]]; }
            } else {
              assert front[i] < front[j] && a[front[i]] < a[front[j]];
            }
          }
        }
      }
    }
  }

  // ----- what `tails` means -----

  /** Some climb of length k+1 over the first n checkpoints ends at this altitude. */
  ghost predicate Ends(a: seq<int>, n: nat, k: nat, last: int)
    requires n <= |a|
  {
    exists climb :: IsClimb(a, n, climb) && |climb| == k + 1 && climb[k] < n && a[climb[k]] == last
  }

  /** tails[k] is the least altitude at which a climb of length k+1 over the first n checkpoints can end; there is no
      climb longer than `tails`. */
  ghost predicate LeastEnds(a: seq<int>, n: nat, tails: seq<int>) {
    && n <= |a|
    && (forall k {:trigger Ends(a, n, k, tails[k])} :: 0 <= k < |tails| ==> Ends(a, n, k, tails[k]))
    && (forall climb :: IsClimb(a, n, climb) && climb != [] ==>
          |climb| <= |tails| && climb[|climb| - 1] < |a| && tails[|climb| - 1] <= a[climb[|climb| - 1]])
  }

  ghost predicate Increasing(tails: seq<int>) {
    forall i, j :: 0 <= i < j < |tails| ==> tails[i] < tails[j]
  }

  /** The place of x in a sorted list: everything before is smaller, everything from there on is not. */
  ghost predicate IsPlace(tails: seq<int>, x: int, position: nat) {
    && position <= |tails|
    && (forall i :: 0 <= i < position ==> tails[i] < x)
    && (forall i :: position <= i < |tails| ==> x <= tails[i])
  }

  function Placed(tails: seq<int>, x: int, position: nat): seq<int>
    requires position <= |tails|
  {
    if position == |tails| then tails + [x] else tails[position := x]
  }

  lemma EndsGrow(a: seq<int>, n: nat, k: nat, last: int)
    requires n < |a| && Ends(a, n, k, last)
    ensures Ends(a, n + 1, k, last)
  {
    var climb :| IsClimb(a, n, climb) && |climb| == k + 1 && climb[k] < n && a[climb[k]] == last;
    assert IsClimb(a, n + 1, climb);
  }

  /** The next checkpoint continues the climbs that end lower. */
  lemma NextEnds(a: seq<int>, n: nat, tails: seq<int>, position: nat)
    requires n < |a| && LeastEnds(a, n, tails) && IsPlace(tails, a[n], position)
    ensures Ends(a, n + 1, position, a[n])
  {
    if position == 0 {
      assert [n][..0] == [];
      assert IsClimb(a, n + 1, [n]);
    } else {
      assert Ends(a, n, position - 1, tails[position - 1]);
      var climb :| IsClimb(a, n, climb) && |climb| == position && climb[position - 1] < n
                   && a[climb[position - 1]] == tails[position - 1];
      var longer := climb + [n];
      assert longer[..position] == climb;
      assert IsClimb(a, n + 1, longer) && longer[position] == n;
    }
  }

  /** No climb that includes the next checkpoint beats the updated tails. */
  lemma NextLeast(a: seq<int>, n: nat, tails: seq<int>, position: nat, climb: seq<nat>)
    requires n < |a| && LeastEnds(a, n, tails) && position <= |tails| && IsPlace(tails, a[n], position)
    requires IsClimb(a, n + 1, climb) && climb != []
    ensures var next := Placed(tails, a[n], position);
            |climb| <= |next| && climb[|climb| - 1] < |a| && next[|climb| - 1] <= a[climb[|climb| - 1]]
  {
    hide LeastEnds, IsPlace, IsClimb;
    LastStep(a, n, tails, climb);
    PlacedBeats(tails, a[n], position, |climb| - 1, a[climb[|climb| - 1]]);
  }

  /** A climb ends before the next checkpoint, or there, after a climb that is one shorter. */
  lemma LastStep(a: seq<int>, n: nat, tails: seq<int>, climb: seq<nat>)
    requires n < |a| && LeastEnds(a, n, tails) && IsClimb(a, n + 1, climb) && climb != []
    ensures var k := |climb| - 1;
            && climb[k] < |a|
            && ((k < |tails| && tails[k] <= a[climb[k]])
                || (a[climb[k]] == a[n] && (k == 0 || (k <= |tails| && tails[k - 1] < a[n]))))
  {
    hide LeastEnds;
    var k := |climb| - 1;
    if climb[k] < n {
      NoneBetter(a, n, tails, climb);
    } else if k > 0 {
      NoneBetter(a, n, tails, climb[..k]);
    }
  }

  lemma PlacedBeats(tails: seq<int>, x: int, position: nat, k: nat, last: int)
    requires IsPlace(tails, x, position)
    requires (k < |tails| && tails[k] <= last) || (last == x && (k == 0 || (k <= |tails| && tails[k - 1] < x)))
    ensures k < |Placed(tails, x, position)| && Placed(tails, x, position)[k] <= last
  {
  }

  lemma NoneBetter(a: seq<int>, n: nat, tails: seq<int>, climb: seq<nat>)
    requires LeastEnds(a, n, tails) && IsClimb(a, n, climb) && climb != []
    ensures |climb| <= |tails| && climb[|climb| - 1] < |a| && tails[|climb| - 1] <= a[climb[|climb| - 1]]
  {
  }

  lemma NextTails(a: seq<int>, n: nat, tails: seq<int>, position: nat)
    requires n < |a| && LeastEnds(a, n, tails) && IsPlace(tails, a[n], position)
    ensures LeastEnds(a, n + 1, Placed(tails, a[n], position))
  {
    var next := Placed(tails, a[n], position);
    NextEnds(a, n, tails, position);
    forall k | 0 <= k < |next| ensures Ends(a, n + 1, k, next[k]) {
      if k != position { EndsGrow(a, n, k, tails[k]); }
    }
    forall climb | IsClimb(a, n + 1, climb) && climb != []
      ensures |climb| <= |next| && climb[|climb| - 1] < |a| && next[|climb| - 1] <= a[climb[|climb| - 1]]
    {
      NextLeast(a, n, tails, position, climb);
    }
  }

  // ----- the reference solution -----

  /** `bisect_left`. */
  method BisectLeft(tails: seq<int>, x: int) returns (position: nat)
    requires Increasing(tails)
    ensures IsPlace(tails, x, position)
  {
    var lo, hi := 0, |tails|;
    while lo < hi
      invariant 0 <= lo <= hi <= |tails|
      invariant forall i :: 0 <= i < lo ==> tails[i] < x
      invariant forall i :: hi <= i < |tails| ==> x <= tails[i]
    {
      var mid := (lo + hi) / 2;
      if tails[mid] < x {
        lo := mid + 1;
      } else {
        hi := mid;
      }
    }
    position := lo;
  }

  method Solve(a: seq<int>) returns (length: nat)
    ensures IsLongest(a, length)
  {
    var tails: seq<int> := [];
    assert LeastEnds(a, 0, tails);
    for n := 0 to |a|
      invariant Increasing(tails) && LeastEnds(a, n, tails)
    {
      var x := a[n];
      var position := BisectLeft(tails, x);
      NextTails(a, n, tails, position);
      if position == |tails| {
        tails := tails + [x];
      } else {
        tails := tails[position := x];
      }
    }
    length := |tails|;
    TailsAreLongest(a, tails);
  }

  lemma TailsAreLongest(a: seq<int>, tails: seq<int>)
    requires LeastEnds(a, |a|, tails)
    ensures IsLongest(a, |tails|)
  {
    forall climb | IsSteady(a, climb) ensures |climb| <= |tails| {
      ClimbIsSteady(a, |a|, climb);
    }
    if tails == [] {
      assert IsSteady(a, []);
    } else {
      var k := |tails| - 1;
      assert Ends(a, |a|, k, tails[k]);
      var climb :| IsClimb(a, |a|, climb) && |climb| == k + 1;
      ClimbIsSteady(a, |a|, climb);
    }
  }
}
