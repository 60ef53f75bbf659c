/** "Cheapest Route": Dijkstra's algorithm with a heap from which stale entries are never removed. */
module CheapestRoute {
  import opened MinHeap

  datatype Road = Road(u: nat, v: nat, w: int)
  datatype Distance = Infinite | Finite(d: int)

  /** The promises of the problem statement: depots 1..n, costs not negative. */
  predicate ValidInput(n: nat, roads: seq<Road>) {
    n >= 1 && forall r :: r in roads ==> 1 <= r.u <= n && 1 <= r.v <= n && r.w >= 0
  }

  ghost predicate IsDepot(n: nat, v: nat) {
    1 <= v <= n
  }

  ghost function Depots(n: nat): set<nat> {
    set v: nat | v <= n && IsDepot(n, v)
  }

  // ----- what the statement asks for -----

  /** `walk` drives from a to b over one-way roads on offer. */
  ghost predicate IsWalk(roads: seq<Road>, walk: seq<Road>, a: nat, b: nat) {
    if walk == [] then a == b else
    var last := walk[|walk| - 1];
    last in roads && last.v == b && IsWalk(roads, walk[..|walk| - 1], a, last.u)
  }

  ghost function Cost(walk: seq<Road>): int {
    if walk == [] then 0 else Cost(walk[..|walk| - 1]) + walk[|walk| - 1].w
  }

  /** The least cost of any walk from depot 1 to depot n, or -1 exactly when there is no walk. */
  ghost predicate IsLeastCost(n: nat, roads: seq<Road>, answer: int) {
    && (answer == -1 <==> !exists walk :: IsWalk(roads, walk, 1, n))
    && (answer != -1 ==> exists walk :: IsWalk(roads, walk, 1, n) && Cost(walk) == answer)
    && (answer != -1 ==> forall walk :: IsWalk(roads, walk, 1, n) ==> answer <= Cost(walk))
  }

  // ----- the state of the search -----

  ghost predicate HasWalk(roads: seq<Road>, v: nat, d: int) {
    exists walk :: IsWalk(roads, walk, 1, v) && Cost(walk) == d
  }

  /** Going on from u costs nothing that the distance of v does not already know. */
  ghost predicate Relaxed(dist: seq<Distance>, r: Road)
    requires r.u < |dist| && r.v < |dist|
  {
    dist[r.u].Finite? && dist[r.v].Finite? && dist[r.v].d <= dist[r.u].d + r.w
  }

  /** Everything the search relies on.
      `expanded` are the depots already popped with their final distance, `closed` those whose roads are all relaxed;
      `floor` is the priority popped last. A heap entry may be stale, but the entry that carries the current distance
      of an unexpanded depot is there exactly once, and for an expanded depot it is gone for good. */
  ghost predicate Search(n: nat, roads: seq<Road>, dist: seq<Distance>, heap: multiset<Entry>,
                         expanded: set<nat>, closed: set<nat>, floor: int)
    requires ValidInput(n, roads)
  {
    && |dist| == n + 1 && floor >= 0
    && closed <= expanded && n !in expanded
    && dist[1] == Finite(0)
    && (forall v :: 1 <= v <= n && dist[v].Finite? ==> dist[v].d >= 0 && HasWalk(roads, v, dist[v].d))
    && (forall e :: e in heap ==> 1 <= e.1 <= n && dist[e.1].Finite? && dist[e.1].d <= e.0 && floor <= e.0)
    && (forall v :: 1 <= v <= n && dist[v].Finite? && v !in expanded ==> heap[(dist[v].d, v)] == 1)
    && (forall v :: v in expanded ==> 1 <= v <= n && dist[v].Finite? && dist[v].d <= floor && (dist[v].d, v) !in heap)
    && (forall r :: r in roads && r.u in closed ==> Relaxed(dist, r))
  }

  lemma SearchStarts(n: nat, roads: seq<Road>, dist: seq<Distance>)
    requires ValidInput(n, roads) && |dist| == n + 1 && dist[1] == Finite(0)
    requires forall v :: 2 <= v <= n ==> dist[v] == Infinite
    ensures Search(n, roads, dist, multiset{(0, 1)}, {}, {}, 0)
  {
    assert IsWalk(roads, [], 1, 1) && Cost([]) == 0;
  }

  lemma ExtendWalk(roads: seq<Road>, r: Road, d: int)
    requires r in roads && HasWalk(roads, r.u, d)
    ensures HasWalk(roads, r.v, d + r.w)
  {
    var walk :| IsWalk(roads, walk, 1, r.u) && Cost(walk) == d;
    var longer := walk + [r];
    assert longer[..|longer| - 1] == walk;
    assert IsWalk(roads, longer, 1, r.v) && Cost(longer) == d + r.w;
  }

  /** Pushing a better distance keeps the search sound. */
  lemma RelaxKeeps(n: nat, roads: seq<Road>, dist: seq<Distance>, heap: multiset<Entry>, expanded: set<nat>,
                   closed: set<nat>, floor: int, r: Road)
    requires ValidInput(n, roads) && Search(n, roads, dist, heap, expanded, closed, floor)
    requires r in roads && r.u in expanded && dist[r.u].d == floor
    requires dist[r.v].Infinite? || floor + r.w < dist[r.v].d
    ensures Search(n, roads, dist[r.v := Finite(floor + r.w)], heap + multiset{(floor + r.w, r.v)}, expanded, closed,
                   floor)
  {
    ExtendWalk(roads, r, floor);
    assert r.v !in expanded;
    assert forall e :: e in heap && e.1 == r.v ==> e.0 > floor + r.w;
    assert (floor + r.w, r.v) !in heap;
  }

  /** Popping an entry that is no longer current changes nothing. */
  lemma StaleKeeps(n: nat, roads: seq<Road>, dist: seq<Distance>, heap: multiset<Entry>, expanded: set<nat>,
                   floor: int, e: Entry)
    requires ValidInput(n, roads) && Search(n, roads, dist, heap, expanded, expanded, floor)
    requires IsLeast(e, heap)
    requires dist[e.1].d < e.0
    ensures Search(n, roads, dist, heap - multiset{e}, expanded, expanded, e.0)
  {
  }

  /** A current entry belongs to a depot never expanded before. */
  lemma FreshKeeps(n: nat, roads: seq<Road>, dist: seq<Distance>, heap: multiset<Entry>, expanded: set<nat>,
                   floor: int, e: Entry)
    requires ValidInput(n, roads) && Search(n, roads, dist, heap, expanded, expanded, floor)
    requires IsLeast(e, heap)
    requires dist[e.1].d == e.0
    ensures e.1 !in expanded
    ensures e.1 != n ==> Search(n, roads, dist, heap - multiset{e}, expanded + {e.1}, expanded, e.0)
  {
  }

  /** A walk either ends in an expanded depot at no less than its distance, or costs at least the floor. */
  lemma {:induction false} WalkBound(n: nat, roads: seq<Road>, dist: seq<Distance>, heap: multiset<Entry>,
                                     expanded: set<nat>, floor: int, walk: seq<Road>, x: nat)
    requires ValidInput(n, roads) && Search(n, roads, dist, heap, expanded, expanded, floor)
    requires IsWalk(roads, walk, 1, x)
    ensures 1 <= x <= n
    ensures (x in expanded && dist[x].d <= Cost(walk)) || Cost(walk) >= floor
    decreases |walk|
  {
    if walk == [] {
      if 1 !in expanded { assert (0, 1) in heap; }
    } else {
      var r := walk[|walk| - 1];
      WalkBound(n, roads, dist, heap, expanded, floor, walk[..|walk| - 1], r.u);
      if r.u in expanded {
        assert Relaxed(dist, r) || Cost(walk) >= floor;
        if r.v !in expanded { assert (dist[r.v].d, r.v) in heap; }
      }
    }
  }

  /** With the heap empty, everything reachable has been expanded. */
  lemma {:induction false} Exhausted(n: nat, roads: seq<Road>, dist: seq<Distance>, expanded: set<nat>, floor: int,
                                     walk: seq<Road>, x: nat)
    requires ValidInput(n, roads) && Search(n, roads, dist, multiset{}, expanded, expanded, floor)
    requires IsWalk(roads, walk, 1, x)
    ensures x in expanded
    decreases |walk|
  {
    if walk != [] {
      var r := walk[|walk| - 1];
      Exhausted(n, roads, dist, expanded, floor, walk[..|walk| - 1], r.u);
      assert Relaxed(dist, r);
    }
  }

  lemma FoundLeast(n: nat, roads: seq<Road>, dist: seq<Distance>, heap: multiset<Entry>, expanded: set<nat>,
                   floor: int, d: int)
    requires ValidInput(n, roads) && Search(n, roads, dist, heap, expanded, expanded, floor)
    requires IsLeast((d, n), heap) && dist[n] == Finite(d)
    ensures IsLeastCost(n, roads, d)
  {
    assert Search(n, roads, dist, heap, expanded, expanded, d);
    forall walk | IsWalk(roads, walk, 1, n) ensures d <= Cost(walk) {
      WalkBound(n, roads, dist, heap, expanded, d, walk, n);
    }
    assert HasWalk(roads, n, d);
  }

  lemma NoneFound(n: nat, roads: seq<Road>, dist: seq<Distance>, expanded: set<nat>, floor: int)
    requires ValidInput(n, roads) && Search(n, roads, dist, multiset{}, expanded, expanded, floor)
    ensures IsLeastCost(n, roads, -1)
  {
    forall walk ensures !IsWalk(roads, walk, 1, n) {
      if IsWalk(roads, walk, 1, n) {
        Exhausted(n, roads, dist, expanded, floor, walk, n);
      }
    }
  }

  // ----- the reference solution -----

  /** `out` holds (v, w) for every road from u to v of cost w. */
  ghost predicate IsOut(roads: seq<Road>, u: nat, out: seq<(nat, int)>) {
    && (forall j :: 0 <= j < |out| ==> Road(u, out[j].0, out[j].1) in roads)
    && (forall r :: r in roads && r.u == u ==> (r.v, r.w) in out)
  }

  /** The adjacency lists. */
  method BuildGraph(n: nat, roads: seq<Road>) returns (graph: seq<seq<(nat, int)>>)
    requires ValidInput(n, roads)
    ensures |graph| == n + 1
    ensures forall u :: 0 <= u <= n ==> IsOut(roads, u, graph[u])
  {
    graph := seq(n + 1, _ => []);
    for i := 0 to |roads|
      invariant |graph| == n + 1
      invariant forall u :: 0 <= u <= n ==> IsOut(roads[..i], u, graph[u])
    {
      var Road(u, v, w) := roads[i];
      graph := graph[u := graph[u] + [(v, w)]];
      assert roads[..i + 1] == roads[..i] + [roads[i]];
    }
    assert roads[..|roads|] == roads;
  }

  /** `d + w < dist[v]`, where an infinite distance is larger than every number. */
  predicate Less(x: int, than: Distance) {
    than.Infinite? || x < than.d
  }

  /** `d > dist[u]`. */
  predicate Exceeds(x: int, what: Distance) {
    what.Finite? && x > what.d
  }

  /** Relaxes every road out of the depot u just popped with distance d. */
  method Expand(n: nat, roads: seq<Road>, out: seq<(nat, int)>, before: seq<Distance>, heap: Heap, u: nat, d: int,
                ghost expanded: set<nat>)
    returns (dist: seq<Distance>)
    requires ValidInput(n, roads) && IsOut(roads, u, out)
    requires Search(n, roads, before, heap.entries, expanded + {u}, expanded, d) && FirstRelaxed(before, u, d, out, 0)
    modifies heap
    ensures Search(n, roads, dist, heap.entries, expanded + {u}, expanded + {u}, d)
  {
    hide Search;
    dist := before;
    for k := 0 to |out|
      invariant Search(n, roads, dist, heap.entries, expanded + {u}, expanded, d)
      invariant FirstRelaxed(dist, u, d, out, k)
    {
      var (v, w) := out[k];
      assert Road(u, v, w) in roads;
      InRange(n, roads, dist, heap.entries, expanded + {u}, expanded, d, Road(u, v, w));
      RelaxNext(dist, u, d, out, k);
      if Less(d + w, dist[v]) {
        RelaxKeeps(n, roads, dist, heap.entries, expanded + {u}, expanded, d, Road(u, v, w));
        dist := dist[v := Finite(d + w)];
        heap.Push((d + w, v));
      }
    }
    CloseDepot(n, roads, dist, heap.entries, expanded, d, u, out);
  }

  lemma EntryInRange(n: nat, roads: seq<Road>, dist: seq<Distance>, heap: multiset<Entry>, expanded: set<nat>,
                     floor: int, e: Entry)
    requires ValidInput(n, roads) && Search(n, roads, dist, heap, expanded, expanded, floor) && e in heap
    ensures IsDepot(n, e.1) && |dist| == n + 1 && dist[e.1].Finite? && dist[e.1].d <= e.0
  {
  }

  lemma InRange(n: nat, roads: seq<Road>, dist: seq<Distance>, heap: multiset<Entry>, expanded: set<nat>,
                closed: set<nat>, d: int, r: Road)
    requires ValidInput(n, roads) && Search(n, roads, dist, heap, expanded, closed, d) && r in roads
    ensures r.u < |dist| && r.v < |dist| && r.w >= 0
  {
  }

  /** The first k roads out of u, whose final distance is d, are relaxed. */
  ghost predicate FirstRelaxed(dist: seq<Distance>, u: nat, d: int, out: seq<(nat, int)>, k: nat) {
    && u < |dist| && dist[u] == Finite(d) && k <= |out|
    && forall j :: 0 <= j < k ==> out[j].0 < |dist| && dist[out[j].0].Finite? && dist[out[j].0].d <= d + out[j].1
  }

  lemma RelaxNext(dist: seq<Distance>, u: nat, d: int, out: seq<(nat, int)>, k: nat)
    requires k < |out| && out[k].0 < |dist| && out[k].1 >= 0 && FirstRelaxed(dist, u, d, out, k)
    ensures var (v, w) := out[k];
            FirstRelaxed(if Less(d + w, dist[v]) then dist[v := Finite(d + w)] else dist, u, d, out, k + 1)
  {
  }

  lemma CloseDepot(n: nat, roads: seq<Road>, dist: seq<Distance>, heap: multiset<Entry>, expanded: set<nat>, d: int,
                   u: nat, out: seq<(nat, int)>)
    requires ValidInput(n, roads) && IsOut(roads, u, out)
    requires Search(n, roads, dist, heap, expanded + {u}, expanded, d) && FirstRelaxed(dist, u, d, out, |out|)
    ensures Search(n, roads, dist, heap, expanded + {u}, expanded + {u}, d)
  {
    forall r | r in roads && r.u == u ensures Relaxed(dist, r) {
      assert (r.v, r.w) in out;
    }
  }

  method Solve(n: nat, roads: seq<Road>) returns (answer: int)
    requires ValidInput(n, roads)
    ensures IsLeastCost(n, roads, answer)
  {
    hide Search;
    var graph := BuildGraph(n, roads);
    var dist := seq(n + 1, _ => Infinite)[1 := Finite(0)];
    var heap := new Heap();
    heap.Push((0, 1));
    ghost var expanded: set<nat>, floor := {}, 0;
    SearchStarts(n, roads, dist);
    assert heap.entries == multiset{(0, 1)};
    while heap.entries != multiset{}
      invariant Search(n, roads, dist, heap.entries, expanded, expanded, floor)
      decreases Depots(n) - expanded, |heap.entries|
    {
      ghost var before := heap.entries;
      var least := heap.Pop();
      var (d, u) := least;
      EntryInRange(n, roads, dist, before, expanded, floor, least);
      if Exceeds(d, dist[u]) {
        StaleKeeps(n, roads, dist, before, expanded, floor, least);
        floor := d;
      } else if u == n {
        FoundLeast(n, roads, dist, before, expanded, floor, d);
        return d;
      } else {
        FreshKeeps(n, roads, dist, before, expanded, floor, least);
        dist := Expand(n, roads, graph[u], dist, heap, u, d, expanded);
        expanded, floor := expanded + {u}, d;
      }
    }
    NoneFound(n, roads, dist, expanded, floor);
    return -1;
  }
}
