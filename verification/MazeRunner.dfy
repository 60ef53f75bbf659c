/** "Maze Runner": breadth-first search over the floor plan finds the fewest steps. */
module MazeRunner {

  type Cell = (int, int)  // (row, column)

  /** The promises of the problem statement: a rectangle with exactly one S and one E. */
  ghost predicate ValidInput(grid: seq<string>, rows: nat, cols: nat, start: Cell, end: Cell) {
    && |grid| == rows && (forall r :: 0 <= r < rows ==> |grid[r]| == cols)
    && Inside(rows, cols, start) && Inside(rows, cols, end)
    && (forall r, c :: 0 <= r < rows && 0 <= c < cols ==> (grid[r][c] == 'S' <==> (r, c) == start))
    && (forall r, c :: 0 <= r < rows && 0 <= c < cols ==> (grid[r][c] == 'E' <==> (r, c) == end))
  }

  predicate Inside(rows: nat, cols: nat, c: Cell) {
    0 <= c.0 < rows && 0 <= c.1 < cols
  }

  /** The cell is on the plan and not a wall. */
  predicate Free(grid: seq<string>, c: Cell) {
    0 <= c.0 < |grid| && 0 <= c.1 < |grid[c.0]| && grid[c.0][c.1] != '#'
  }

  const MOVES: seq<Cell> := [(1, 0), (-1, 0), (0, 1), (0, -1)]

  function Move(c: Cell, k: nat): Cell
    requires k < 4
  {
    (c.0 + MOVES[k].0, c.1 + MOVES[k].1)
  }

  /** Up, down, left or right of each other. */
  predicate Adjacent(a: Cell, b: Cell) {
    (a.0 == b.0 && (a.1 == b.1 + 1 || b.1 == a.1 + 1)) || (a.1 == b.1 && (a.0 == b.0 + 1 || b.0 == a.0 + 1))
  }

  lemma MovesAreAdjacent(a: Cell, b: Cell)
    ensures Adjacent(a, b) <==> b == Move(a, 0) || b == Move(a, 1) || b == Move(a, 2) || b == Move(a, 3)
  {
  }

  // ----- what the statement asks for -----

  /** A walk over free cells from a to b, one cell further each step. */
  ghost predicate IsPath(grid: seq<string>, path: seq<Cell>, a: Cell, b: Cell)
    decreases |path|
  {
    && path != [] && path[|path| - 1] == b && Free(grid, b)
    && if |path| == 1 then a == b else
         Adjacent(path[|path| - 2], b) && IsPath(grid, path[..|path| - 1], a, path[|path| - 2])
  }

  /** The fewest steps of any path, or -1 exactly when there is none. */
  ghost predicate IsFewest(grid: seq<string>, a: Cell, b: Cell, answer: int) {
    && (answer == -1 <==> !exists path :: IsPath(grid, path, a, b))
    && (answer != -1 ==> exists path :: IsPath(grid, path, a, b) && |path| - 1 == answer)
    && (answer != -1 ==> forall path :: IsPath(grid, path, a, b) ==> answer <= |path| - 1)
  }

  // ----- the search -----

  ghost predicate HasPath(grid: seq<string>, a: Cell, b: Cell, steps: nat) {
    exists path :: IsPath(grid, path, a, b) && |path| - 1 == steps
  }

  /** Every discovered cell has a path as long as its distance. */
  ghost predicate Attained(grid: seq<string>, start: Cell, dist: map<Cell, nat>) {
    && start in dist && dist[start] == 0
    && forall c :: c in dist ==> Free(grid, c) && HasPath(grid, start, c, dist[c])
  }

  /** The queue holds discovered cells in order of distance, spanning at most two consecutive distances. */
  ghost predicate InLine(dist: map<Cell, nat>, queue: seq<Cell>, low: nat) {
    && (forall c :: c in queue ==> c in dist && low <= dist[c] <= low + 1)
    && (forall i, j :: 0 <= i < j < |queue| ==> queue[i] != queue[j] && dist[queue[i]] <= dist[queue[j]])
  }

  /** All free neighbours of c are discovered, at most one step further. */
  ghost predicate Settled(grid: seq<string>, dist: map<Cell, nat>, c: Cell) {
    c in dist && forall k :: 0 <= k < 4 ==> Knows(grid, dist, c, k)
  }

  ghost predicate Knows(grid: seq<string>, dist: map<Cell, nat>, c: Cell, k: nat)
    requires c in dist
  {
    k < 4 && (Free(grid, Move(c, k)) ==> Move(c, k) in dist && dist[Move(c, k)] <= dist[c] + 1)
  }

  /** Everything that has left the queue is settled, no further away than `low`, and not the goal. */
  ghost predicate DoneFits(grid: seq<string>, end: Cell, dist: map<Cell, nat>, pending: set<Cell>, low: nat) {
    forall c :: c in dist && c !in pending ==> Settled(grid, dist, c) && dist[c] <= low && c != end
  }

  ghost function Elements(queue: seq<Cell>): set<Cell> {
    set c | c in queue
  }

  ghost predicate Search(grid: seq<string>, start: Cell, end: Cell, dist: map<Cell, nat>, queue: seq<Cell>, low: nat) {
    && Attained(grid, start, dist)
    && InLine(dist, queue, low) && (queue != [] ==> dist[queue[0]] == low)
    && DoneFits(grid, end, dist, Elements(queue), low)
  }

  /** The search while cell u, just taken from the queue, is being expanded: its first k neighbours are known. */
  ghost predicate Expanding(grid: seq<string>, start: Cell, end: Cell, dist: map<Cell, nat>, queue: seq<Cell>,
                            u: Cell, k: nat) {
    && Attained(grid, start, dist) && u in dist && u !in queue && u != end
    && InLine(dist, queue, dist[u])
    && DoneFits(grid, end, dist, Elements(queue) + {u}, dist[u])
    && k <= 4 && forall j :: 0 <= j < k ==> Knows(grid, dist, u, j)
  }

  lemma Extend(grid: seq<string>, start: Cell, u: Cell, v: Cell, steps: nat)
    requires HasPath(grid, start, u, steps) && Adjacent(u, v) && Free(grid, v)
    ensures HasPath(grid, start, v, steps + 1)
  {
    var path :| IsPath(grid, path, start, u) && |path| - 1 == steps;
    var longer := path + [v];
    assert longer[..|longer| - 1] == path && longer[|longer| - 2] == u;
    assert IsPath(grid, longer, start, v);
  }

  lemma Begin(grid: seq<string>, start: Cell, end: Cell)
    requires Free(grid, start)
    ensures Search(grid, start, end, map[start := 0], [start], 0)
  {
    assert IsPath(grid, [start], start, start);
    assert Elements([start]) == {start};
  }

  lemma Take(grid: seq<string>, start: Cell, end: Cell, dist: map<Cell, nat>, queue: seq<Cell>, low: nat)
    requires Search(grid, start, end, dist, queue, low) && queue != [] && queue[0] != end
    ensures Expanding(grid, start, end, dist, queue[1..], queue[0], 0)
  {
    assert queue == [queue[0]] + queue[1..];
    assert Elements(queue) == Elements(queue[1..]) + {queue[0]};
  }

  lemma LineGrows(dist: map<Cell, nat>, queue: seq<Cell>, low: nat, v: Cell)
    requires InLine(dist, queue, low) && v !in dist
    ensures InLine(dist[v := low + 1], queue + [v], low)
  {
    forall i | 0 <= i < |queue| ensures queue[i] != v && dist[queue[i]] <= low + 1 {
      assert queue[i] in queue;
    }
  }

  lemma StaysSettled(grid: seq<string>, dist: map<Cell, nat>, v: Cell, d: nat, c: Cell)
    requires Settled(grid, dist, c) && v !in dist
    ensures Settled(grid, dist[v := d], c)
  {
    var dist' := dist[v := d];
    forall j | 0 <= j < 4 ensures Knows(grid, dist', c, j) { assert Knows(grid, dist, c, j); }
  }

  lemma DoneStays(grid: seq<string>, end: Cell, dist: map<Cell, nat>, pending: set<Cell>, low: nat, v: Cell, d: nat)
    requires DoneFits(grid, end, dist, pending, low) && v !in dist
    ensures DoneFits(grid, end, dist[v := d], pending + {v}, low)
  {
    forall c | c in dist && c !in pending + {v} ensures Settled(grid, dist[v := d], c) {
      StaysSettled(grid, dist, v, d, c);
    }
  }

  /** A newly discovered neighbour goes to the end of the line. */
  lemma Discover(grid: seq<string>, start: Cell, end: Cell, dist: map<Cell, nat>, queue: seq<Cell>, u: Cell, k: nat)
    requires Expanding(grid, start, end, dist, queue, u, k) && k < 4
    requires Free(grid, Move(u, k)) && Move(u, k) !in dist
    ensures var v := Move(u, k);
            Expanding(grid, start, end, dist[v := dist[u] + 1], queue + [v], u, k + 1)
  {
    hide InLine, DoneFits, Free;
    var v := Move(u, k);
    var dist', queue' := dist[v := dist[u] + 1], queue + [v];
    MovesAreAdjacent(u, v);
    Extend(grid, start, u, v, dist[u]);
    LineGrows(dist, queue, dist[u], v);
    DoneStays(grid, end, dist, Elements(queue) + {u}, dist[u], v, dist[u] + 1);
    assert Elements(queue') + {u} == Elements(queue) + {u} + {v};
    forall j | 0 <= j < k + 1 ensures Knows(grid, dist', u, j) {
      if j < k { assert Knows(grid, dist, u, j); }
    }
  }

  lemma Expanded(grid: seq<string>, start: Cell, end: Cell, dist: map<Cell, nat>, queue: seq<Cell>, u: Cell)
    requires Expanding(grid, start, end, dist, queue, u, 4)
    ensures queue != [] ==> queue[0] in dist
    ensures Search(grid, start, end, dist, queue, if queue == [] then dist[u] else dist[queue[0]])
  {
    var low := if queue == [] then dist[u] else dist[queue[0]];
    if queue != [] { assert queue[0] in queue; }
    forall c | c in queue ensures low <= dist[c] {
      var i :| 0 <= i < |queue| && queue[i] == c;
    }
    assert InLine(dist, queue, low);
    assert Settled(grid, dist, u);
  }

  /** A path ends in a settled cell at no less than its distance, or is at least as long as the front is away. */
  lemma {:induction false} PathBound(grid: seq<string>, start: Cell, end: Cell, dist: map<Cell, nat>,
                                     queue: seq<Cell>, low: nat, path: seq<Cell>, x: Cell)
    requires Search(grid, start, end, dist, queue, low) && IsPath(grid, path, start, x)
    ensures (x in dist && x !in queue && dist[x] <= |path| - 1) || (queue != [] && |path| - 1 >= low)
    decreases |path|
  {
    if |path| == 1 {
      if start in queue { assert low <= dist[start]; }
    } else {
      var y := path[|path| - 2];
      PathBound(grid, start, end, dist, queue, low, path[..|path| - 1], y);
      if y in dist && y !in queue && dist[y] <= |path| - 2 {
        assert Settled(grid, dist, y);
        MovesAreAdjacent(y, x);
        assert Knows(grid, dist, y, 0) && Knows(grid, dist, y, 1) && Knows(grid, dist, y, 2) && Knows(grid, dist, y, 3);
      }
    }
  }

  lemma Found(grid: seq<string>, start: Cell, end: Cell, dist: map<Cell, nat>, queue: seq<Cell>, low: nat)
    requires Search(grid, start, end, dist, queue, low) && queue != [] && queue[0] == end
    ensures IsFewest(grid, start, end, dist[end])
  {
    assert end in queue;
    assert HasPath(grid, start, end, dist[end]);
    forall path | IsPath(grid, path, start, end) ensures dist[end] <= |path| - 1 {
      PathBound(grid, start, end, dist, queue, low, path, end);
    }
  }

  lemma Exhausted(grid: seq<string>, start: Cell, end: Cell, dist: map<Cell, nat>, low: nat)
    requires Search(grid, start, end, dist, [], low)
    ensures IsFewest(grid, start, end, -1)
  {
    forall path ensures !IsPath(grid, path, start, end) {
      if IsPath(grid, path, start, end) {
        PathBound(grid, start, end, dist, [], low, path, end);
      }
    }
  }

  // ----- the reference solution -----

  ghost function Cells(rows: nat, cols: nat): set<Cell> {
    set r, c | 0 <= r < rows && 0 <= c < cols :: (r, c)
  }

  lemma FreeCells(grid: seq<string>, rows: nat, cols: nat, start: Cell, end: Cell, c: Cell)
    requires ValidInput(grid, rows, cols, start, end) && Free(grid, c)
    ensures c in Cells(rows, cols)
  {
  }

  /** Scans the plan for S and E. */
  method Locate(grid: seq<string>, rows: nat, cols: nat, ghost s: Cell, ghost e: Cell) returns (start: Cell, end: Cell)
    requires ValidInput(grid, rows, cols, s, e)
    ensures start == s && end == e
  {
    start, end := (0, 0), (0, 0);
    for r := 0 to rows
      invariant s.0 < r ==> start == s
      invariant e.0 < r ==> end == e
    {
      for c := 0 to cols
        invariant s.0 < r || (s.0 == r && s.1 < c) ==> start == s
        invariant e.0 < r || (e.0 == r && e.1 < c) ==> end == e
      {
        if grid[r][c] == 'S' {
          start := (r, c);
        } else if grid[r][c] == 'E' {
          end := (r, c);
        }
      }
    }
  }

  method Solve(grid: seq<string>, rows: nat, cols: nat, ghost s: Cell, ghost e: Cell) returns (answer: int)
    requires ValidInput(grid, rows, cols, s, e)
    ensures IsFewest(grid, s, e, answer)
  {
    hide Search, Expanding, IsFewest;
    var start, end := Locate(grid, rows, cols, s, e);
    assert Free(grid, start);
    var dist: map<Cell, nat> := map[start := 0];
    var queue := [start];
    ghost var low := 0;
    Begin(grid, start, end);
    while queue != []
      invariant Search(grid, start, end, dist, queue, low)
      decreases Cells(rows, cols) - dist.Keys, |queue|
    {
      var u := queue[0];
      Front(grid, start, end, dist, queue, low);
      if u == end {
        Found(grid, start, end, dist, queue, low);
        return dist[u];
      }
      Take(grid, start, end, dist, queue, low);
      ghost var before := dist.Keys;
      queue := queue[1..];
      ghost var length := |queue|;
      for k := 0 to 4
        invariant u in dist && Expanding(grid, start, end, dist, queue, u, k)
        invariant before <= dist.Keys && (dist.Keys == before ==> |queue| == length)
        invariant dist.Keys != before ==> Cells(rows, cols) - dist.Keys < Cells(rows, cols) - before
      {
        var v := Move(u, k);
        if Inside(rows, cols, v) && grid[v.0][v.1] != '#' && v !in dist {
          Discover(grid, start, end, dist, queue, u, k);
          FreeCells(grid, rows, cols, s, e, v);
          dist := dist[v := dist[u] + 1];
          queue := queue + [v];
        } else {
          Skip(grid, start, end, dist, queue, u, k);
        }
      }
      Expanded(grid, start, end, dist, queue, u);
      low := if queue == [] then dist[u] else dist[queue[0]];
    }
    Exhausted(grid, start, end, dist, low);
    return -1;
  }

  lemma Front(grid: seq<string>, start: Cell, end: Cell, dist: map<Cell, nat>, queue: seq<Cell>, low: nat)
    requires Search(grid, start, end, dist, queue, low) && queue != []
    ensures queue[0] in dist
  {
    assert queue[0] in queue;
  }

  /** A neighbour that is a wall, off the plan or already discovered is known. */
  lemma Skip(grid: seq<string>, start: Cell, end: Cell, dist: map<Cell, nat>, queue: seq<Cell>, u: Cell, k: nat)
    requires Expanding(grid, start, end, dist, queue, u, k) && k < 4
    requires Free(grid, Move(u, k)) ==> Move(u, k) in dist
    ensures Expanding(grid, start, end, dist, queue, u, k + 1)
  {
    var v := Move(u, k);
    if v in dist {
      if v in queue {
      } else if v != u {
        assert v !in Elements(queue) + {u};
      }
    }
  }
}
