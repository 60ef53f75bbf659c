/** "Ticket Counter": the one-pass sum equals the number of sales in the rotating queue. */
module TicketCounter {

  // ----- the queue of the statement -----

  /** A person in line: their number and how many tickets they still want. */
  datatype Person = Person(id: nat, wants: nat)

  function Wanted(line: seq<Person>): nat {
    if line == [] then 0 else line[0].wants + Wanted(line[1..])
  }

  /** One sale: the front person gets a ticket and leaves, or goes to the back wanting one fewer. */
  function Sale(line: seq<Person>): seq<Person>
    requires line != [] && line[0].wants >= 1
  {
    var p := line[0];
    if p.wants == 1 then line[1..] else line[1..] + [Person(p.id, p.wants - 1)]
  }

  predicate EachWantsSome(line: seq<Person>) {
    forall i :: 0 <= i < |line| ==> line[i].wants >= 1
  }

  /** The number of sales up to and including the one that gives person k their last ticket. */
  function Sales(line: seq<Person>, k: nat): nat
    requires EachWantsSome(line)
    decreases Wanted(line)
  {
    if line == [] then 0
    else if line[0].id == k && line[0].wants == 1 then 1
    else
      SaleWanted(line);
      1 + Sales(Sale(line), k)
  }

  lemma {:induction false} WantedOfSum(a: seq<Person>, b: seq<Person>)
    ensures Wanted(a + b) == Wanted(a) + Wanted(b)
  {
    if a == [] {
      assert a + b == b;
    } else {
      assert (a + b)[1..] == a[1..] + b;
      WantedOfSum(a[1..], b);
    }
  }

  lemma SaleWanted(line: seq<Person>)
    requires line != [] && EachWantsSome(line)
    ensures Wanted(Sale(line)) == Wanted(line) - 1
  {
    var p := line[0];
    if p.wants > 1 {
      WantedOfSum(line[1..], [Person(p.id, p.wants - 1)]);
      assert [Person(p.id, p.wants - 1)][1..] == [];
    }
  }

  // ----- the closed form, for a line in any state -----

  function Min(x: int, y: int): int {
    if x <= y then x else y
  }

  /** The sum of min(wants, most). */
  function Capped(line: seq<Person>, most: int): int {
    if line == [] then 0 else Min(line[0].wants, most) + Capped(line[1..], most)
  }

  lemma {:induction false} CappedOfSum(a: seq<Person>, b: seq<Person>, most: int)
    ensures Capped(a + b, most) == Capped(a, most) + Capped(b, most)
  {
    if a == [] {
      assert a + b == b;
    } else {
      assert (a + b)[1..] == a[1..] + b;
      CappedOfSum(a[1..], b, most);
    }
  }

  /** Those in front of the person at position p are served as often as they, those behind once less. */
  function ClosedForm(line: seq<Person>, p: nat): int
    requires p < |line|
  {
    var most := line[p].wants;
    Capped(line[..p], most) + most + Capped(line[p + 1..], most - 1)
  }

  lemma CappedOne(x: Person, most: int)
    ensures Capped([x], most) == Min(x.wants, most)
  {
    assert [x][1..] == [];
  }

  /** Every sale before the last one of the person at p lowers the closed form by one. */
  lemma {:induction false} SalesAreClosedForm(line: seq<Person>, k: nat, p: nat)
    requires EachWantsSome(line) && p < |line| && line[p].id == k
    requires forall i :: 0 <= i < |line| && line[i].id == k ==> i == p
    ensures Sales(line, k) == ClosedForm(line, p)
    decreases Wanted(line)
  {
    var most := line[p].wants;
    if p == 0 && most == 1 {
      LastSale(line);
    } else {
      SaleWanted(line);
      var next := Sale(line);
      var p' := if p == 0 then |next| - 1 else p - 1;
      assert p > 0 ==> next[p'] == line[p];
      SalesAreClosedForm(next, k, p');
      if p == 0 {
        GoBehind(line);
      } else if line[0].wants == 1 {
        FrontLeaves(line, p);
      } else {
        FrontGoesBehind(line, p);
      }
    }
  }

  lemma LastSale(line: seq<Person>)
    requires line != [] && line[0].wants == 1
    ensures ClosedForm(line, 0) == 1
  {
    NothingLeft(line[1..]);
  }

  lemma {:induction false} NothingLeft(line: seq<Person>)
    ensures Capped(line, 0) == 0
  {
    if line != [] { NothingLeft(line[1..]); }
  }

  /** The person themselves goes to the back: everyone else now counts as in front. */
  lemma GoBehind(line: seq<Person>)
    requires line != [] && line[0].wants > 1
    ensures ClosedForm(Sale(line), |Sale(line)| - 1) == ClosedForm(line, 0) - 1
  {
    var next := Sale(line);
    assert next[..|next| - 1] == line[1..] && next[|next|..] == [];
  }

  /** The front person leaves with their last ticket. */
  lemma FrontLeaves(line: seq<Person>, p: nat)
    requires 0 < p < |line| && line[0].wants == 1 && line[p].wants >= 1
    ensures ClosedForm(Sale(line), p - 1) == ClosedForm(line, p) - 1
  {
    assert line[1..][..p - 1] == line[..p][1..] && line[1..][p..] == line[p + 1..];
  }

  /** The front person moves from before p to behind p, wanting one fewer. */
  lemma FrontGoesBehind(line: seq<Person>, p: nat)
    requires 0 < p < |line| && line[0].wants > 1
    ensures ClosedForm(Sale(line), p - 1) == ClosedForm(line, p) - 1
  {
    var next := Sale(line);
    var most: int := line[p].wants;
    var again := Person(line[0].id, line[0].wants - 1);
    assert next[..p - 1] == line[..p][1..] && next[p - 1] == line[p] && next[p..] == line[p + 1..] + [again];
    CappedOfSum(line[p + 1..], [again], most - 1);
    CappedOne(again, most - 1);
  }

  // ----- the reference solution -----

  /** The line at the start: person i, numbered from 1, at position i - 1. */
  function Line(needs: seq<nat>): (line: seq<Person>)
    ensures |line| == |needs| && forall i :: 0 <= i < |needs| ==> line[i] == Person(i + 1, needs[i])
  {
    seq(|needs|, i requires 0 <= i < |needs| => Person(i + 1, needs[i]))
  }

  /** What the pass has summed up after the first `index` people. */
  ghost function Summed(line: seq<Person>, k: nat, target: int, index: nat): int
    requires k <= |line| && index <= |line|
  {
    if index <= k then Capped(line[..index], target) else Capped(line[..k], target) + Capped(line[k..index], target - 1)
  }

  lemma SummedNext(line: seq<Person>, k: nat, target: int, index: nat)
    requires k <= |line| && index < |line|
    ensures Summed(line, k, target, index + 1)
         == Summed(line, k, target, index) + Min(line[index].wants, if index < k then target else target - 1)
  {
    if index < k {
      assert line[..index + 1] == line[..index] + [line[index]];
      CappedOfSum(line[..index], [line[index]], target);
      CappedOne(line[index], target);
    } else {
      assert line[k..index + 1] == line[k..index] + [line[index]];
      CappedOfSum(line[k..index], [line[index]], target - 1);
      CappedOne(line[index], target - 1);
      assert line[k..k] == [];
    }
  }

  lemma SummedAll(line: seq<Person>, k: nat)
    requires 1 <= k <= |line|
    ensures Summed(line, k, line[k - 1].wants, |line|) == ClosedForm(line, k - 1)
  {
    var target: int := line[k - 1].wants;
    assert line[k..|line|] == line[k..] && line[..|line|] == line;
    assert line[..k] == line[..k - 1] + [line[k - 1]];
    CappedOfSum(line[..k - 1], [line[k - 1]], target);
    CappedOne(line[k - 1], target);
  }

  method Solve(needs: seq<nat>, k: nat) returns (total: int)
    requires 1 <= k <= |needs| && forall i :: 0 <= i < |needs| ==> needs[i] >= 1
    ensures total == Sales(Line(needs), k)
  {
    var target: int := needs[k - 1];
    ghost var line := Line(needs);
    total := 0;
    for index := 0 to |needs|
      invariant total == Summed(line, k, target, index)
    {
      var need := needs[index];
      SummedNext(line, k, target, index);
      total := total + if index < k then Min(need, target) else Min(need, target - 1);
    }
    SummedAll(line, k);
    SalesAreClosedForm(line, k, k - 1);
  }
}
