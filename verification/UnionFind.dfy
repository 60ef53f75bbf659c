/** The disjoint-set forest of the graph reference solutions: `parent` is a list indexed by vertex number (position 0
    is unused), `find` walks to the root halving the path as it goes, and two roots are joined by one assignment.

    The partition is `leader`: every vertex's representative. */
module UnionFind {

  /** The partition in which every vertex of 0..n is alone. */
  function Singletons(n: nat): (leaders: seq<nat>)
    ensures |leaders| == n + 1
    ensures forall x :: 0 <= x <= n ==> leaders[x] == x
  {
    seq(n + 1, x requires 0 <= x => x)
  }

  /** Merges the class of u into the class of v: everyone represented like u is now represented like v. */
  function Merge(leaders: seq<nat>, u: nat, v: nat): (merged: seq<nat>)
    requires u < |leaders| && v < |leaders|
    ensures |merged| == |leaders|
    ensures forall x :: 0 <= x < |leaders| ==> merged[x] == if leaders[x] == leaders[u] then leaders[v] else leaders[x]
  {
    seq(|leaders|, x requires 0 <= x < |leaders| => if leaders[x] == leaders[u] then leaders[v] else leaders[x])
  }

  class Forest {
    const n: nat
    var parent: array<nat>
    ghost var leader: seq<nat>   // the representative of every vertex
    ghost var height: seq<nat>  // strictly increases along parent links, so following them ends

    ghost predicate Valid()
      reads this, parent
    {
      && parent.Length == |leader| == |height| == n + 1
      && forall x :: 0 <= x <= n ==> Sound(x)
    }

    /** Vertex x hangs below its leader, and its leader is a root. */
    ghost predicate Sound(x: nat)
      requires parent.Length == |leader| == |height| == n + 1 && x <= n
      reads this, parent
    {
      && parent[x] <= n && leader[x] <= n
      && leader[parent[x]] == leader[x]
      && parent[leader[x]] == leader[x]
      && (parent[x] == x ==> leader[x] == x)
      && (parent[x] != x ==> height[x] < height[parent[x]])
      && height[x] <= height[leader[x]]
    }

    constructor (size: nat)
      ensures Valid() && fresh(parent)
      ensures n == size && leader == Singletons(size)
    {
      n := size;
      parent := new nat[size + 1](x requires 0 <= x => x);
      leader := Singletons(size);
      height := seq(size + 1, _ => 0);
    }

    /** The representative of `start`. The path to it is halved; the partition stays what it was. */
    method Find(start: nat) returns (root: nat)
      requires Valid() && start <= n
      modifies parent
      ensures Valid()
      ensures leader == old(leader)
      ensures root <= n && root == leader[start] && leader[root] == parent[root] == root
    {
      var x: nat := start;
      assert Sound(start);
      while parent[x] != x
        invariant Valid() && x <= n && leader[x] == leader[start] <= n && height[x] <= height[leader[x]]
        decreases height[leader[start]] - height[x]
      {
        assert Sound(x) && Sound(parent[x]) && Sound(parent[parent[x]]);
        ghost var up := parent[parent[x]];
        label before:
        parent[x] := parent[parent[x]];
        forall y: nat | y <= n ensures Sound(y) {
          assert old@before(Sound(y));
        }
        assert Sound(up);
        x := parent[x];
      }
      assert Sound(x);
      root := x;
    }

    /** `parent[u] = v` for two different roots. */
    method Link(u: nat, v: nat)
      requires Valid() && u <= n && v <= n && u != v
      requires parent[u] == u && parent[v] == v
      modifies parent, `leader, `height
      ensures Valid()
      ensures leader == Merge(old(leader), u, v)
    {
      assert Sound(u) && Sound(v);
      parent[u] := v;
      leader := Merge(leader, u, v);
      if height[v] <= height[u] {
        height := height[v := height[u] + 1];
      }
      forall y: nat | y <= n ensures Sound(y) {
        assert old(Sound(y) && Sound(parent[y]));
      }
    }

    /** Finds both ends and joins their classes if they differ. */
    method Union(u: nat, v: nat) returns (joined: bool)
      requires Valid() && u <= n && v <= n
      modifies parent, `leader, `height
      ensures Valid()
      ensures joined <==> old(leader[u] != leader[v])
      ensures leader == Merge(old(leader), u, v)
    {
      var ru := Find(u);
      var rv := Find(v);
      assert Sound(ru);
      joined := ru != rv;
      if joined {
        assert Merge(leader, ru, rv) == Merge(leader, u, v);
        Link(ru, rv);
      }
    }
  }
}
