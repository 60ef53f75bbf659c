/** "Cheapest Network": Kruskal's algorithm over a disjoint-set forest is optimal. */
module CheapestNetwork {
  import opened PythonSorted
  import opened SetFacts
  import opened UnionFind

  datatype Edge = Edge(w: int, u: nat, v: nat)

  /** The promises of the problem statement: houses 1..n, positive costs. */
  predicate ValidInput(n: nat, edges: seq<Edge>) {
    n >= 1 && forall i :: 0 <= i < |edges| ==> 1 <= edges[i].u <= n && 1 <= edges[i].v <= n && edges[i].w >= 1
  }

  // ----- what the statement asks for -----

  /** One of the chosen routes joins a and b, in either direction. */
  ghost predicate Adjacent(edges: seq<Edge>, chosen: set<nat>, a: nat, b: nat) {
    exists i :: i in chosen && i < |edges|
      && ((edges[i].u == a && edges[i].v == b) || (edges[i].u == b && edges[i].v == a))
  }

  ghost predicate IsWalk(edges: seq<Edge>, chosen: set<nat>, walk: seq<nat>) {
    |walk| >= 1 && forall k :: 0 <= k < |walk| - 1 ==> Adjacent(edges, chosen, walk[k], walk[k + 1])
  }

  /** a can reach b over the chosen routes. */
  ghost predicate Reaches(edges: seq<Edge>, chosen: set<nat>, a: nat, b: nat) {
    exists walk :: IsWalk(edges, chosen, walk) && walk[0] == a && walk[|walk| - 1] == b
  }

  /** Every house can reach every other over the chosen routes. */
  ghost predicate ConnectsAll(n: nat, edges: seq<Edge>, chosen: set<nat>) {
    && (forall i :: i in chosen ==> i < |edges|)
    && forall a, b :: 1 <= a <= n && 1 <= b <= n ==> Reaches(edges, chosen, a, b)
  }

  /** The least cost of any choice of routes that connects all houses, or -1 exactly when there is no such choice. */
  ghost predicate IsLeastCost(n: nat, edges: seq<Edge>, answer: int) {
    && (answer == -1 <==> !exists chosen :: ConnectsAll(n, edges, chosen))
    && (answer != -1 ==> exists chosen :: ConnectsAll(n, edges, chosen) && Sum(chosen, Costs(edges)) == answer)
    && (answer != -1 ==> forall chosen :: ConnectsAll(n, edges, chosen) ==> answer <= Sum(chosen, Costs(edges)))
  }

  function Costs(edges: seq<Edge>): (costs: seq<int>)
    ensures |costs| == |edges|
    ensures forall i :: 0 <= i < |edges| ==> costs[i] == edges[i].w
  {
    seq(|edges|, i requires 0 <= i < |edges| => edges[i].w)
  }

  // ----- walks -----

  lemma ReachesSelf(edges: seq<Edge>, chosen: set<nat>, a: nat)
    ensures Reaches(edges, chosen, a, a)
  {
    assert IsWalk(edges, chosen, [a]) && [a][0] == a;
  }

  lemma ReachesStep(edges: seq<Edge>, chosen: set<nat>, a: nat, b: nat)
    requires Adjacent(edges, chosen, a, b)
    ensures Reaches(edges, chosen, a, b)
  {
    assert IsWalk(edges, chosen, [a, b]) && [a, b][0] == a && [a, b][1] == b;
  }

  lemma ReachesTransitive(edges: seq<Edge>, chosen: set<nat>, a: nat, b: nat, c: nat)
    requires Reaches(edges, chosen, a, b) && Reaches(edges, chosen, b, c)
    ensures Reaches(edges, chosen, a, c)
  {
    var p :| IsWalk(edges, chosen, p) && p[0] == a && p[|p| - 1] == b;
    var q :| IsWalk(edges, chosen, q) && q[0] == b && q[|q| - 1] == c;
    var r := p + q[1..];
    forall k | 0 <= k < |r| - 1 ensures Adjacent(edges, chosen, r[k], r[k + 1]) {
      if k >= |p| - 1 {
        assert r[k] == q[k - (|p| - 1)] && r[k + 1] == q[k + 1 - (|p| - 1)];
      }
    }
    assert IsWalk(edges, chosen, r) && r[0] == a && r[|r| - 1] == c;
  }

  lemma ReachesMore(edges: seq<Edge>, chosen: set<nat>, more: set<nat>, a: nat, b: nat)
    requires Reaches(edges, chosen, a, b) && chosen <= more
    ensures Reaches(edges, more, a, b)
  {
    var p :| IsWalk(edges, chosen, p) && p[0] == a && p[|p| - 1] == b;
    assert IsWalk(edges, more, p);
  }

  // ----- partitions obtained by merging along routes -----

  ghost predicate Permutes(order: seq<nat>, m: nat) {
    && |order| == m
    && (forall k :: 0 <= k < m ==> order[k] < m)
    && (forall i :: 0 <= i < m ==> i in order)
    && (forall a, b :: 0 <= a < b < m ==> order[a] != order[b])
  }

  /** The classes among the houses 1..n, each named by its representative. */
  ghost function Classes(n: nat, leaders: seq<nat>): set<nat>
    requires |leaders| == n + 1
  {
    set x | 1 <= x <= n :: leaders[x]
  }

  /** Merging two different classes leaves exactly one class fewer; merging a class with itself changes nothing. */
  lemma MergeClasses(n: nat, leaders: seq<nat>, u: nat, v: nat)
    requires |leaders| == n + 1 && 1 <= u <= n && 1 <= v <= n
    ensures leaders[u] != leaders[v] ==> |Classes(n, Merge(leaders, u, v))| == |Classes(n, leaders)| - 1
    ensures leaders[u] == leaders[v] ==> Merge(leaders, u, v) == leaders
  {
    var merged := Merge(leaders, u, v);
    if leaders[u] != leaders[v] {
      assert merged[v] == leaders[v];
      forall c | c in Classes(n, leaders) && c != leaders[u] ensures c in Classes(n, merged) {
        var x :| 1 <= x <= n && leaders[x] == c;
        assert merged[x] == c;
      }
      assert Classes(n, merged) == Classes(n, leaders) - {leaders[u]};
    }
  }

  /** The partition after merging along the first k routes of the order. */
  ghost function Partition(n: nat, edges: seq<Edge>, order: seq<nat>, k: nat): (r: seq<nat>)
    requires ValidInput(n, edges) && Permutes(order, |edges|) && k <= |order|
    ensures |r| == n + 1
  {
    if k == 0 then Singletons(n) else
    Merge(Partition(n, edges, order, k - 1), edges[order[k - 1]].u, edges[order[k - 1]].v)
  }

  /** The partition after merging further along those of the routes order[k], order[k+1], ... that are chosen. */
  ghost function Absorb(n: nat, leaders: seq<nat>, edges: seq<Edge>, order: seq<nat>, chosen: set<nat>,
                        k: nat): (r: seq<nat>)
    requires ValidInput(n, edges) && Permutes(order, |edges|) && k <= |order| && |leaders| == n + 1
    ensures |r| == n + 1
    decreases |order| - k
  {
    if k == |order| then leaders else
    var e := edges[order[k]];
    Absorb(n, if order[k] in chosen then Merge(leaders, e.u, e.v) else leaders, edges, order, chosen, k + 1)
  }

  /** Houses once together stay together, and so do the endpoints of every merged route. */
  lemma {:induction false} PartitionKeeps(n: nat, edges: seq<Edge>, order: seq<nat>, j: nat, k: nat)
    requires ValidInput(n, edges) && Permutes(order, |edges|) && j < k <= |order|
    ensures var r, e := Partition(n, edges, order, k), edges[order[j]]; r[e.u] == r[e.v]
  {
    if j < k - 1 {
      PartitionKeeps(n, edges, order, j, k - 1);
    }
  }

  lemma {:induction false} AbsorbKeeps(n: nat, leaders: seq<nat>, edges: seq<Edge>, order: seq<nat>, chosen: set<nat>,
                                       k: nat)
    requires ValidInput(n, edges) && Permutes(order, |edges|) && k <= |order| && |leaders| == n + 1
    ensures var r := Absorb(n, leaders, edges, order, chosen, k);
            && (forall x, y :: 0 <= x <= n && 0 <= y <= n && leaders[x] == leaders[y] ==> r[x] == r[y])
            && (forall j :: k <= j < |order| && order[j] in chosen ==> r[edges[order[j]].u] == r[edges[order[j]].v])
    decreases |order| - k
  {
    if k < |order| {
      var e := edges[order[k]];
      AbsorbKeeps(n, if order[k] in chosen then Merge(leaders, e.u, e.v) else leaders, edges, order, chosen, k + 1);
    }
  }

  // ----- counting and pricing the chosen routes by position -----

  /** How many of the routes order[k], order[k+1], ... are chosen. */
  ghost function CountFrom(order: seq<nat>, chosen: set<nat>, k: nat): nat
    requires k <= |order|
    decreases |order| - k
  {
    if k == |order| then 0 else (if order[k] in chosen then 1 else 0) + CountFrom(order, chosen, k + 1)
  }

  /** What the chosen ones among them cost. */
  ghost function CostFrom(order: seq<nat>, chosen: set<nat>, costs: seq<int>, k: nat): int
    requires k <= |order| && forall j :: 0 <= j < |order| ==> order[j] < |costs|
    decreases |order| - k
  {
    if k == |order| then 0
    else (if order[k] in chosen then costs[order[k]] else 0) + CostFrom(order, chosen, costs, k + 1)
  }

  lemma {:induction false} FromIgnores(order: seq<nat>, chosen: set<nat>, costs: seq<int>, x: nat, k: nat)
    requires k <= |order| && forall j :: 0 <= j < |order| ==> order[j] < |costs|
    requires forall j :: k <= j < |order| ==> order[j] != x
    ensures CountFrom(order, chosen - {x}, k) == CountFrom(order, chosen, k)
    ensures CostFrom(order, chosen - {x}, costs, k) == CostFrom(order, chosen, costs, k)
    decreases |order| - k
  {
    if k < |order| { FromIgnores(order, chosen, costs, x, k + 1); }
  }

  /** Counting and pricing along the order agrees with the size and the sum of the set. */
  lemma {:induction false} Tally(order: seq<nat>, chosen: set<nat>, costs: seq<int>, k: nat)
    requires Permutes(order, |costs|) && k <= |order|
    requires forall i :: i in chosen ==> i < |costs|
    requires forall j :: 0 <= j < k ==> order[j] !in chosen
    ensures |chosen| == CountFrom(order, chosen, k)
    ensures Sum(chosen, costs) == CostFrom(order, chosen, costs, k)
    decreases |order| - k
  {
    if k == |order| {
      assert forall i :: i in chosen ==> i in order;
      assert chosen == {};
    } else {
      var rest := chosen - {order[k]};
      Tally(order, rest, costs, k + 1);
      FromIgnores(order, chosen, costs, order[k], k + 1);
      if order[k] in chosen {
        SumSplit(chosen, costs, order[k]);
      } else {
        assert rest == chosen;
      }
    }
  }

  /** Each further chosen route removes at most one class. */
  lemma {:induction false} AbsorbFewClasses(n: nat, leaders: seq<nat>, edges: seq<Edge>, order: seq<nat>,
                                            chosen: set<nat>, k: nat)
    requires ValidInput(n, edges) && Permutes(order, |edges|) && k <= |order| && |leaders| == n + 1
    ensures |Classes(n, Absorb(n, leaders, edges, order, chosen, k))| + CountFrom(order, chosen, k)
         >= |Classes(n, leaders)|
    decreases |order| - k
  {
    if k < |order| {
      var e := edges[order[k]];
      MergeClasses(n, leaders, e.u, e.v);
      var next := if order[k] in chosen then Merge(leaders, e.u, e.v) else leaders;
      AbsorbFewClasses(n, next, edges, order, chosen, k + 1);
    }
  }

  // ----- Kruskal's choice -----

  /** Route order[k] joins two classes of the partition made by the cheaper routes. */
  ghost predicate Joins(n: nat, edges: seq<Edge>, order: seq<nat>, k: nat)
    requires ValidInput(n, edges) && Permutes(order, |edges|) && k < |order|
  {
    var p := Partition(n, edges, order, k);
    p[edges[order[k]].u] != p[edges[order[k]].v]
  }

  /** The routes taken among the first k. */
  ghost function Taken(n: nat, edges: seq<Edge>, order: seq<nat>, k: nat): (taken: set<nat>)
    requires ValidInput(n, edges) && Permutes(order, |edges|) && k <= |order|
    ensures forall i :: i in taken ==> i < |edges|
  {
    if k == 0 then {} else
    Taken(n, edges, order, k - 1) + if Joins(n, edges, order, k - 1) then {order[k - 1]} else {}
  }

  lemma {:induction false} TakenMembers(n: nat, edges: seq<Edge>, order: seq<nat>, k: nat, j: nat)
    requires ValidInput(n, edges) && Permutes(order, |edges|) && k <= |order| && j < |order|
    ensures order[j] in Taken(n, edges, order, k) <==> j < k && Joins(n, edges, order, j)
  {
    if k > 0 {
      TakenMembers(n, edges, order, k - 1, j);
    }
  }

  lemma {:induction false} SingletonClasses(n: nat)
    ensures |Classes(n, Singletons(n))| == n
  {
    if n > 0 {
      SingletonClasses(n - 1);
      var s, t := Singletons(n), Singletons(n - 1);
      forall c | c in Classes(n - 1, t) ensures c in Classes(n, s) {
        assert s[c] == c == t[c];
      }
      assert s[n] in Classes(n, s);
      forall c | c in Classes(n, s) && c != n ensures c in Classes(n - 1, t) {
        assert t[c] == c;
      }
      assert Classes(n, s) == Classes(n - 1, t) + {n};
    }
  }

  /** Every taken route removes one class, so the routes taken from position k on account for the classes lost. */
  lemma {:induction false} TakenFrom(n: nat, edges: seq<Edge>, order: seq<nat>, k: nat)
    requires ValidInput(n, edges) && Permutes(order, |edges|) && k <= |order|
    ensures CountFrom(order, Taken(n, edges, order, |order|), k)
         == |Classes(n, Partition(n, edges, order, k))| - |Classes(n, Partition(n, edges, order, |order|))|
    decreases |order| - k
  {
    if k < |order| {
      TakenFrom(n, edges, order, k + 1);
      TakenMembers(n, edges, order, |order|, k);
      MergeClasses(n, Partition(n, edges, order, k), edges[order[k]].u, edges[order[k]].v);
    }
  }

  /** Whatever the taken routes put together can be walked over them. */
  lemma {:induction false} TakenReaches(n: nat, edges: seq<Edge>, order: seq<nat>, k: nat, a: nat, b: nat)
    requires ValidInput(n, edges) && Permutes(order, |edges|) && k <= |order|
    requires a <= n && b <= n
    requires Partition(n, edges, order, k)[a] == Partition(n, edges, order, k)[b]
    ensures Reaches(edges, Taken(n, edges, order, k), a, b)
    decreases k
  {
    var chosen := Taken(n, edges, order, k);
    if k == 0 {
      ReachesSelf(edges, chosen, a);
    } else {
      var p, e := Partition(n, edges, order, k - 1), edges[order[k - 1]];
      var earlier := Taken(n, edges, order, k - 1);
      if p[a] == p[b] {
        TakenReaches(n, edges, order, k - 1, a, b);
        ReachesMore(edges, earlier, chosen, a, b);
      } else {
        TakenMembers(n, edges, order, k, k - 1);
        assert Adjacent(edges, chosen, e.u, e.v) && Adjacent(edges, chosen, e.v, e.u);
        var near, far := if p[a] == p[e.u] then e.u else e.v, if p[a] == p[e.u] then e.v else e.u;
        TakenReaches(n, edges, order, k - 1, a, near);
        TakenReaches(n, edges, order, k - 1, far, b);
        ReachesMore(edges, earlier, chosen, a, near);
        ReachesMore(edges, earlier, chosen, far, b);
        ReachesStep(edges, chosen, near, far);
        ReachesTransitive(edges, chosen, a, near, far);
        ReachesTransitive(edges, chosen, a, far, b);
      }
    }
  }

  // ----- the cut bound and optimality -----

  /** A partition that keeps the endpoints of every chosen route together keeps the ends of every walk together. */
  lemma {:induction false} WalkStaysInClass(edges: seq<Edge>, chosen: set<nat>, leaders: seq<nat>, walk: seq<nat>)
    requires IsWalk(edges, chosen, walk)
    requires forall i :: i in chosen && i < |edges| ==>
      edges[i].u < |leaders| && edges[i].v < |leaders| && leaders[edges[i].u] == leaders[edges[i].v]
    requires walk[0] < |leaders| && walk[|walk| - 1] < |leaders|
    ensures leaders[walk[0]] == leaders[walk[|walk| - 1]]
    decreases |walk|
  {
    if |walk| > 1 {
      assert Adjacent(edges, chosen, walk[0], walk[1]);
      assert IsWalk(edges, chosen, walk[1..]) by {
        forall k | 0 <= k < |walk[1..]| - 1 ensures Adjacent(edges, chosen, walk[1..][k], walk[1..][k + 1]) {
          assert Adjacent(edges, chosen, walk[k + 1], walk[k + 2]);
        }
      }
      WalkStaysInClass(edges, chosen, leaders, walk[1..]);
    }
  }

  lemma OneClassLeft(n: nat, edges: seq<Edge>, chosen: set<nat>, leaders: seq<nat>)
    requires ValidInput(n, edges) && |leaders| == n + 1 && ConnectsAll(n, edges, chosen)
    requires forall i :: i in chosen ==> leaders[edges[i].u] == leaders[edges[i].v]
    ensures |Classes(n, leaders)| == 1
  {
    forall a | 1 <= a <= n ensures leaders[a] == leaders[1] {
      assert Reaches(edges, chosen, 1, a);
      var walk :| IsWalk(edges, chosen, walk) && walk[0] == 1 && walk[|walk| - 1] == a;
      WalkStaysInClass(edges, chosen, leaders, walk);
    }
    assert leaders[1] in Classes(n, leaders);
    assert Classes(n, leaders) == {leaders[1]};
  }

  /** Cut bound: any connecting choice takes at least (classes - 1) of the routes from position k on. */
  lemma ConnectingNeedsTail(n: nat, edges: seq<Edge>, order: seq<nat>, k: nat, chosen: set<nat>)
    requires ValidInput(n, edges) && Permutes(order, |edges|) && k <= |order|
    requires ConnectsAll(n, edges, chosen)
    ensures CountFrom(order, chosen, k) >= |Classes(n, Partition(n, edges, order, k))| - 1
  {
    var p := Partition(n, edges, order, k);
    var q := Absorb(n, p, edges, order, chosen, k);
    AbsorbFewClasses(n, p, edges, order, chosen, k);
    forall i | i in chosen ensures q[edges[i].u] == q[edges[i].v] {
      assert i in order;
      var j :| 0 <= j < |order| && order[j] == i;
      if j < k { PartitionKeeps(n, edges, order, j, k); }
      AbsorbKeeps(n, p, edges, order, chosen, k);
    }
    OneClassLeft(n, edges, chosen, q);
  }

  /** From position k on, the routes are listed from cheap to expensive. */
  ghost predicate SortedByCost(costs: seq<int>, order: seq<nat>, k: nat)
    requires forall j :: 0 <= j < |order| ==> order[j] < |costs|
    decreases |order| - k
  {
    k + 1 < |order| ==> costs[order[k]] <= costs[order[k + 1]] && SortedByCost(costs, order, k + 1)
  }

  /** If `more` has at least as many members as `less` in every tail of the cost order, it costs at least as much. */
  lemma {:induction false} TailsDominate(costs: seq<int>, order: seq<nat>, more: set<nat>, less: set<nat>, k: nat,
                                         floor: int)
    requires forall j :: 0 <= j < |order| ==> order[j] < |costs|
    requires k <= |order| && SortedByCost(costs, order, k)
    requires forall j :: k <= j <= |order| ==> CountFrom(order, more, j) >= CountFrom(order, less, j)
    requires k < |order| ==> floor <= costs[order[k]]
    ensures CostFrom(order, more, costs, k) - CostFrom(order, less, costs, k)
         >= floor * (CountFrom(order, more, k) - CountFrom(order, less, k))
    decreases |order| - k
  {
    if k < |order| {
      var w := costs[order[k]];
      TailsDominate(costs, order, more, less, k + 1, w);
      var d := CountFrom(order, more, k + 1) - CountFrom(order, less, k + 1);
      var m, l := if order[k] in more then 1 else 0, if order[k] in less then 1 else 0;
      assert w * d + w * m - w * l == w * (d + m - l);
      assert d + m - l >= 0;
      LargerFactor(floor, w, d + m - l);
    }
  }

  lemma LargerFactor(a: int, b: int, f: int)
    requires a <= b && f >= 0
    ensures a * f <= b * f
  {
  }

  lemma PartitionConnected(n: nat, edges: seq<Edge>, order: seq<nat>, chosen: set<nat>)
    requires ValidInput(n, edges) && Permutes(order, |edges|)
    requires ConnectsAll(n, edges, chosen)
    ensures |Classes(n, Partition(n, edges, order, |order|))| == 1
  {
    var last := Partition(n, edges, order, |order|);
    forall i | i in chosen ensures last[edges[i].u] == last[edges[i].v] {
      assert i in order;
      var j :| 0 <= j < |order| && order[j] == i;
      PartitionKeeps(n, edges, order, j, |order|);
    }
    OneClassLeft(n, edges, chosen, last);
  }

  /** Every tail of the order holds at least as many routes of a connecting choice as of Kruskal's. */
  lemma TakenIsLeast(n: nat, edges: seq<Edge>, order: seq<nat>, chosen: set<nat>, k: nat)
    requires ValidInput(n, edges) && Permutes(order, |edges|) && k <= |order|
    requires ConnectsAll(n, edges, chosen)
    ensures CountFrom(order, chosen, k) >= CountFrom(order, Taken(n, edges, order, |order|), k)
  {
    PartitionConnected(n, edges, order, chosen);
    ConnectingNeedsTail(n, edges, order, k, chosen);
    TakenFrom(n, edges, order, k);
  }

  lemma TakenSize(n: nat, edges: seq<Edge>, order: seq<nat>)
    requires ValidInput(n, edges) && Permutes(order, |edges|)
    ensures |Taken(n, edges, order, |order|)| == n - |Classes(n, Partition(n, edges, order, |order|))|
  {
    SingletonClasses(n);
    TakenFrom(n, edges, order, 0);
    Tally(order, Taken(n, edges, order, |order|), Costs(edges), 0);
  }

  lemma KruskalCheapest(n: nat, edges: seq<Edge>, order: seq<nat>, chosen: set<nat>, taken: set<nat>)
    requires ValidInput(n, edges) && Permutes(order, |edges|) && SortedByCost(Costs(edges), order, 0)
    requires ConnectsAll(n, edges, chosen)
    requires taken == Taken(n, edges, order, |order|)
    ensures Sum(taken, Costs(edges)) <= Sum(chosen, Costs(edges))
  {
    forall k | 0 <= k <= |order| ensures CountFrom(order, chosen, k) >= CountFrom(order, taken, k) {
      TakenIsLeast(n, edges, order, chosen, k);
    }
    TailsDominate(Costs(edges), order, chosen, taken, 0, 0);
    Tally(order, chosen, Costs(edges), 0);
    Tally(order, taken, Costs(edges), 0);
  }

  /** Kruskal's choice connects every house exactly when some choice does, exactly when it has n - 1 routes; and no
      choice that connects every house is cheaper. */
  lemma KruskalOptimal(n: nat, edges: seq<Edge>, order: seq<nat>)
    requires ValidInput(n, edges) && Permutes(order, |edges|) && SortedByCost(Costs(edges), order, 0)
    ensures var taken := Taken(n, edges, order, |order|);
            IsLeastCost(n, edges, if |taken| == n - 1 then Sum(taken, Costs(edges)) else -1)
  {
    var taken := Taken(n, edges, order, |order|);
    TakenSize(n, edges, order);
    if |taken| == n - 1 {
      TakenConnects(n, edges, order);
    }
    forall chosen | ConnectsAll(n, edges, chosen)
      ensures |taken| == n - 1 && Sum(taken, Costs(edges)) <= Sum(chosen, Costs(edges))
    {
      PartitionConnected(n, edges, order, chosen);
      KruskalCheapest(n, edges, order, chosen, taken);
    }
    SumNonnegative(taken, Costs(edges));
  }

  lemma TakenConnects(n: nat, edges: seq<Edge>, order: seq<nat>)
    requires ValidInput(n, edges) && Permutes(order, |edges|)
    requires |Classes(n, Partition(n, edges, order, |order|))| == 1
    ensures ConnectsAll(n, edges, Taken(n, edges, order, |order|))
  {
    var taken, last := Taken(n, edges, order, |order|), Partition(n, edges, order, |order|);
    assert last[1] in Classes(n, last);
    SubsetSize({last[1]}, Classes(n, last));
    forall a, b | 1 <= a <= n && 1 <= b <= n ensures Reaches(edges, taken, a, b) {
      assert last[a] in Classes(n, last) && last[b] in Classes(n, last);
      TakenReaches(n, edges, order, |order|, a, b);
    }
  }

  // ----- the reference solution -----

  /** The positions of the routes in the order of `sorted((w, u, v) ...)`. */
  function CostOrder(edges: seq<Edge>): (order: seq<nat>)
    ensures Permutes(order, |edges|) && SortedByCost(Costs(edges), order, 0)
  {
    var keys := seq(|edges|, i requires 0 <= i < |edges| => [edges[i].w, edges[i].u, edges[i].v]);
    StableOrderByCost(edges, keys, StableOrder(keys));
    StableOrder(keys)
  }

  lemma StableOrderByCost(edges: seq<Edge>, keys: seq<seq<int>>, order: seq<nat>)
    requires |keys| == |edges|
    requires forall i :: 0 <= i < |edges| ==> keys[i] == [edges[i].w, edges[i].u, edges[i].v]
    requires IsStableOrder(keys, |edges|, order)
    ensures Permutes(order, |edges|) && SortedByCost(Costs(edges), order, 0)
  {
    forall a, b | 0 <= a < b < |order| ensures order[a] != order[b] {
      StableOrderInjective(keys, order, a, b);
    }
    StableOrderSorted(edges, keys, order, 0);
  }

  lemma {:induction false} StableOrderSorted(edges: seq<Edge>, keys: seq<seq<int>>, order: seq<nat>, k: nat)
    requires |keys| == |edges|
    requires forall i :: 0 <= i < |edges| ==> keys[i] == [edges[i].w, edges[i].u, edges[i].v]
    requires IsStableOrder(keys, |edges|, order)
    ensures SortedByCost(Costs(edges), order, k)
    decreases |order| - k
  {
    if k + 1 < |order| {
      assert Ahead(keys, order[k], order[k + 1]);
      StableOrderSorted(edges, keys, order, k + 1);
    }
  }

  method Solve(n: nat, edges: seq<Edge>) returns (answer: int)
    requires ValidInput(n, edges)
    ensures IsLeastCost(n, edges, answer)
  {
    var order := CostOrder(edges);
    var forest := new Forest(n);
    var total, used := 0, 0;
    for k := 0 to |order|
      invariant fresh(forest) && fresh(forest.parent) && forest.n == n && forest.Valid()
      invariant forest.leader == Partition(n, edges, order, k)
      invariant used == |Taken(n, edges, order, k)|
      invariant total == Sum(Taken(n, edges, order, k), Costs(edges))
    {
      var Edge(w, u, v) := edges[order[k]];
      var joined := forest.Union(u, v);
      TakeNext(n, edges, order, k);
      if joined {
        total := total + w;
        used := used + 1;
      }
    }
    KruskalOptimal(n, edges, order);
    answer := if used == n - 1 then total else -1;
  }

  lemma TakeNext(n: nat, edges: seq<Edge>, order: seq<nat>, k: nat)
    requires ValidInput(n, edges) && Permutes(order, |edges|) && k < |order|
    ensures var now, next := Taken(n, edges, order, k), Taken(n, edges, order, k + 1);
            if Joins(n, edges, order, k) then
              |next| == |now| + 1 && Sum(next, Costs(edges)) == Sum(now, Costs(edges)) + edges[order[k]].w
            else next == now
  {
    TakenMembers(n, edges, order, k, k);
    var now, next := Taken(n, edges, order, k), Taken(n, edges, order, k + 1);
    if Joins(n, edges, order, k) {
      SumSplit(next, Costs(edges), order[k]);
      assert next - {order[k]} == now;
    }
  }

  lemma {:induction false} SumNonnegative(s: set<nat>, weight: seq<int>)
    requires forall i :: i in s ==> i < |weight| && weight[i] >= 0
    ensures Sum(s, weight) >= 0
    decreases s
  {
    if s != {} {
      var i :| i in s && Sum(s, weight) == weight[i] + Sum(s - {i}, weight);
      SumNonnegative(s - {i}, weight);
    }
  }
}
