/** Python's `sorted` / `list.sort` with a tuple key: tuples compare lexicographically and equal keys keep their
    original order. The result is given as the permutation of positions, so that callers can talk about which
    element went where. */
module PythonSorted {

  /** Python's `<=` on tuples of integers. */
  predicate LexLeq(a: seq<int>, b: seq<int>) {
    if a == [] then true
    else if b == [] then false
    else a[0] < b[0] || (a[0] == b[0] && LexLeq(a[1..], b[1..]))
  }

  lemma {:induction false} LexLeqTotal(a: seq<int>, b: seq<int>)
    ensures LexLeq(a, b) || LexLeq(b, a)
    ensures LexLeq(a, b) && LexLeq(b, a) ==> a == b
  {
    if a != [] && b != [] {
      LexLeqTotal(a[1..], b[1..]);
      assert a == [a[0]] + a[1..] && b == [b[0]] + b[1..];
    }
  }

  lemma {:induction false} LexLeqTransitive(a: seq<int>, b: seq<int>, c: seq<int>)
    requires LexLeq(a, b) && LexLeq(b, c)
    ensures LexLeq(a, c)
  {
    if a != [] && a[0] == b[0] == c[0] {
      LexLeqTransitive(a[1..], b[1..], c[1..]);
    }
  }

  lemma LexLeqTriple(a: int, b: int, c: int, x: int, y: int, z: int)
    ensures LexLeq([a, b, c], [x, y, z]) <==> a < x || (a == x && (b < y || (b == y && c <= z)))
  {
    assert [a, b, c][1..] == [b, c] && [x, y, z][1..] == [y, z];
    assert [b, c][1..] == [c] && [y, z][1..] == [z];
    assert LexLeq([c], [z]) <==> c <= z by { assert [c][1..] == [] && [z][1..] == []; }
    assert LexLeq([b, c], [y, z]) <==> b < y || (b == y && c <= z);
  }

  /** Position i is sorted ahead of position j: a smaller key, or the same key and the earlier position. */
  predicate Ahead(keys: seq<seq<int>>, i: nat, j: nat)
    requires i < |keys| && j < |keys|
  {
    LexLeq(keys[i], keys[j]) && (keys[i] == keys[j] ==> i < j)
  }

  /** `order` lists the first n positions of `keys`, each once, in stable sorted order. */
  predicate IsStableOrder(keys: seq<seq<int>>, n: nat, order: seq<nat>)
    requires n <= |keys|
  {
    && |order| == n
    && (forall a :: 0 <= a < n ==> order[a] < n)
    && (forall i :: 0 <= i < n ==> i in order)
    && (forall a, b :: 0 <= a < b < n ==> Ahead(keys, order[a], order[b]))
  }

  /** Inserts position i behind every position already listed whose key is not larger. */
  function Insert(keys: seq<seq<int>>, order: seq<nat>, i: nat): (r: seq<nat>)
    requires i < |keys|
    requires forall a :: 0 <= a < |order| ==> order[a] < i
    requires forall a, b :: 0 <= a < b < |order| ==> Ahead(keys, order[a], order[b])
    ensures |r| == |order| + 1
    ensures forall k :: k in r <==> k in order || k == i
    ensures forall a, b :: 0 <= a < b < |r| ==> r[a] <= i && r[b] <= i && Ahead(keys, r[a], r[b])
  {
    if order == [] then [i]
    else if LexLeq(keys[order[0]], keys[i]) then
      var rest := Insert(keys, order[1..], i);
      assert forall b :: 0 <= b < |rest| ==> rest[b] in order[1..] || rest[b] == i;
      [order[0]] + rest
    else
      InsertInFront(keys, order, i);
      [i] + order
  }

  lemma InsertInFront(keys: seq<seq<int>>, order: seq<nat>, i: nat)
    requires i < |keys| && order != []
    requires forall a :: 0 <= a < |order| ==> order[a] < i
    requires forall a, b :: 0 <= a < b < |order| ==> Ahead(keys, order[a], order[b])
    requires !LexLeq(keys[order[0]], keys[i])
    ensures forall b :: 0 <= b < |order| ==> Ahead(keys, i, order[b])
  {
    forall b | 0 <= b < |order| ensures Ahead(keys, i, order[b]) {
      LexLeqTotal(keys[i], keys[order[0]]);
      if b > 0 {
        LexLeqTransitive(keys[i], keys[order[0]], keys[order[b]]);
      }
    }
  }

  /** Insert puts a position behind those whose keys are not larger, in front of the first larger one. */
  lemma {:induction false} InsertBetween(keys: seq<seq<int>>, front: seq<nat>, back: seq<nat>, i: nat)
    requires i < |keys|
    requires forall a :: 0 <= a < |front| ==> front[a] < i
    requires forall a :: 0 <= a < |back| ==> back[a] < i
    requires forall a, b :: 0 <= a < b < |front + back| ==> Ahead(keys, (front + back)[a], (front + back)[b])
    requires forall a :: 0 <= a < |front| ==> LexLeq(keys[front[a]], keys[i])
    requires back == [] || !LexLeq(keys[back[0]], keys[i])
    ensures Insert(keys, front + back, i) == front + [i] + back
    decreases |front|
  {
    var order := front + back;
    if front == [] {
      assert order == back;
    } else {
      assert order[1..] == front[1..] + back;
      InsertBetween(keys, front[1..], back, i);
      assert order[0] == front[0] && [front[0]] + (front[1..] + [i] + back) == front + [i] + back;
    }
  }

  /** The stable sorted order of all positions of `keys`. */
  function StableOrder(keys: seq<seq<int>>): (order: seq<nat>)
    ensures IsStableOrder(keys, |keys|, order)
  {
    OrderFirst(keys, |keys|)
  }

  function OrderFirst(keys: seq<seq<int>>, n: nat): (order: seq<nat>)
    requires n <= |keys|
    ensures IsStableOrder(keys, n, order)
  {
    if n == 0 then [] else
    var r := Insert(keys, OrderFirst(keys, n - 1), n - 1);
    assert forall a :: 0 <= a < n ==> r[a] in r;
    r
  }

  /** No position is listed twice. */
  lemma StableOrderInjective(keys: seq<seq<int>>, order: seq<nat>, a: nat, b: nat)
    requires IsStableOrder(keys, |keys|, order)
    requires a < |order| && b < |order| && a != b
    ensures order[a] != order[b]
  {
    if a < b { assert Ahead(keys, order[a], order[b]); } else { assert Ahead(keys, order[b], order[a]); }
  }

  /** The stable order is determined by the keys: two positions never change places when other keys change. */
  lemma StableOrderIsByAhead(keys: seq<seq<int>>, order: seq<nat>, a: nat, b: nat)
    requires IsStableOrder(keys, |keys|, order)
    requires a < |order| && b < |order| && a != b
    ensures a < b <==> Ahead(keys, order[a], order[b])
  {
    if a > b {
      assert Ahead(keys, order[b], order[a]);
      LexLeqTotal(keys[order[a]], keys[order[b]]);
    }
  }
}
