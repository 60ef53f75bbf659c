/** "Word Morph": two rolling rows compute the least number of single-letter edits, over all edit sequences. */
module WordMorph {

  // ----- what the statement asks for -----

  datatype Edit = Insert(at: nat, letter: char) | Delete(at: nat) | Replace(at: nat, letter: char)

  predicate Fits(word: string, e: Edit) {
    match e
    case Insert(at, _) => at <= |word|
    case Delete(at) => at < |word|
    case Replace(at, letter) => at < |word| && letter != word[at]
  }

  function Apply(word: string, e: Edit): string
    requires Fits(word, e)
  {
    match e
    case Insert(at, letter) => word[..at] + [letter] + word[at..]
    case Delete(at) => word[..at] + word[at + 1..]
    case Replace(at, letter) => word[at := letter]
  }

  /** Doing the edits one after the other turns `from` into `to`. */
  ghost predicate Turns(from: string, edits: seq<Edit>, to: string)
    decreases |edits|
  {
    if edits == [] then from == to
    else Fits(from, edits[0]) && Turns(Apply(from, edits[0]), edits[1..], to)
  }

  ghost predicate IsDistance(a: string, b: string, n: nat) {
    && (exists edits :: Turns(a, edits, b) && |edits| == n)
    && (forall edits :: Turns(a, edits, b) ==> n <= |edits|)
  }

  // ----- the recurrence -----

  function Min(x: nat, y: nat): nat {
    if x <= y then x else y
  }

  function Front(s: string): string
    requires s != []
  {
    s[..|s| - 1]
  }

  function Last(s: string): char
    requires s != []
  {
    s[|s| - 1]
  }

  function Distance(a: string, b: string): nat
    decreases |a| + |b|
  {
    if a == [] then |b|
    else if b == [] then |a|
    else Min(Min(Distance(Front(a), b) + 1, Distance(a, Front(b)) + 1),
             Distance(Front(a), Front(b)) + if Last(a) != Last(b) then 1 else 0)
  }

  /** Each of the three ways of the recurrence is available. */
  lemma Ways(a: string, b: string)
    ensures a != [] ==> Distance(a, b) <= Distance(Front(a), b) + 1
    ensures b != [] ==> Distance(a, b) <= Distance(a, Front(b)) + 1
    ensures a != [] && b != [] ==> Distance(a, b) <= Distance(Front(a), Front(b)) + if Last(a) != Last(b) then 1 else 0
  {
  }

  // ----- no edit sequence is shorter -----

  lemma {:induction false} AppendNear(a: string, x: char, b: string)
    ensures Distance(a, b) <= 1 + Distance(a + [x], b)
    decreases |b|
  {
    assert Front(a + [x]) == a;
    if b != [] {
      AppendNear(a, x, Front(b));
      Ways(a, b);
    }
  }

  lemma {:induction false} ReplaceNear(p: string, x: char, y: char, b: string)
    ensures Distance(p + [x], b) <= 1 + Distance(p + [y], b)
    decreases |b|
  {
    assert Front(p + [x]) == p && Front(p + [y]) == p;
    if b != [] {
      ReplaceNear(p, x, y, Front(b));
      Ways(p + [x], b);
    }
  }

  /** An edit inside the front of a word leaves its last letter in place. */
  lemma ApplyFront(p: string, e: Edit, x: char)
    requires Fits(p, e)
    ensures Fits(p + [x], e) && Apply(p + [x], e) == Apply(p, e) + [x]
  {
  }

  /** One edit brings the distance down by one at most. */
  lemma {:induction false} OneEdit(a: string, e: Edit, b: string)
    requires Fits(a, e)
    ensures Distance(a, b) <= 1 + Distance(Apply(a, e), b)
    decreases |a| + |b|
  {
    if e.Insert? && e.at == |a| {
      assert Apply(a, e) == a + [e.letter];
      AppendNear(a, e.letter, b);
    } else if e.Delete? && e.at == |a| - 1 {
      assert Apply(a, e) == Front(a);
      Ways(a, b);
    } else if e.Replace? && e.at == |a| - 1 {
      assert Apply(a, e) == Front(a) + [e.letter];
      assert a == Front(a) + [Last(a)];
      ReplaceNear(Front(a), Last(a), e.letter, b);
    } else {
      InnerEdit(Front(a), e, Last(a), b);
      assert a == Front(a) + [Last(a)];
    }
  }

  lemma {:induction false} InnerEdit(p: string, e: Edit, x: char, b: string)
    requires Fits(p, e)
    ensures Fits(p + [x], e)
    ensures Distance(p + [x], b) <= 1 + Distance(Apply(p + [x], e), b)
    decreases |p| + 1 + |b|, 0
  {
    ApplyFront(p, e, x);
    var a, a' := p + [x], Apply(p, e) + [x];
    assert Front(a) == p && Front(a') == Apply(p, e);
    if b == [] {
    } else {
      OneEdit(p, e, b);
      OneEdit(p, e, Front(b));
      InnerEdit(p, e, x, Front(b));
      Ways(a, b);
    }
  }

  lemma {:induction false} NoShorter(a: string, edits: seq<Edit>, b: string)
    requires Turns(a, edits, b)
    ensures Distance(a, b) <= |edits|
    decreases |edits|
  {
    if edits == [] {
      SameWord(a);
    } else {
      OneEdit(a, edits[0], b);
      NoShorter(Apply(a, edits[0]), edits[1..], b);
    }
  }

  lemma {:induction false} SameWord(a: string)
    ensures Distance(a, a) == 0
    decreases |a|
  {
    if a != [] { SameWord(Front(a)); }
  }

  // ----- some edit sequence is as short -----

  lemma {:induction false} TurnsFront(p: string, edits: seq<Edit>, q: string, x: char)
    requires Turns(p, edits, q)
    ensures Turns(p + [x], edits, q + [x])
    decreases |edits|
  {
    if edits != [] {
      ApplyFront(p, edits[0], x);
      TurnsFront(Apply(p, edits[0]), edits[1..], q, x);
    }
  }

  lemma {:induction false} TurnsThen(a: string, edits: seq<Edit>, q: string, e: Edit)
    requires Turns(a, edits, q) && Fits(q, e)
    ensures Turns(a, edits + [e], Apply(q, e))
    decreases |edits|
  {
    if edits == [] {
      assert (edits + [e])[1..] == [];
    } else {
      TurnsThen(Apply(a, edits[0]), edits[1..], q, e);
      assert (edits + [e])[1..] == edits[1..] + [e];
    }
  }

  lemma DeleteFirst(a: string, rest: seq<Edit>, b: string) returns (edits: seq<Edit>)
    requires a != [] && Turns(Front(a), rest, b)
    ensures Turns(a, edits, b) && |edits| == |rest| + 1
  {
    edits := [Delete(|a| - 1)] + rest;
    assert Apply(a, edits[0]) == Front(a) && edits[1..] == rest;
  }

  lemma InsertLast(a: string, start: seq<Edit>, b: string) returns (edits: seq<Edit>)
    requires b != [] && Turns(a, start, Front(b))
    ensures Turns(a, edits, b) && |edits| == |start| + 1
  {
    var e := Insert(|b| - 1, Last(b));
    edits := start + [e];
    TurnsThen(a, start, Front(b), e);
    assert Apply(Front(b), e) == b;
  }

  lemma MatchLast(a: string, start: seq<Edit>, b: string) returns (edits: seq<Edit>)
    requires a != [] && b != [] && Turns(Front(a), start, Front(b))
    ensures Turns(a, edits, b) && |edits| == |start| + if Last(a) != Last(b) then 1 else 0
  {
    edits := start;
    TurnsFront(Front(a), start, Front(b), Last(a));
    assert Front(a) + [Last(a)] == a && Front(b) + [Last(b)] == b;
    if Last(a) != Last(b) {
      var e := Replace(|b| - 1, Last(b));
      TurnsThen(a, start, Front(b) + [Last(a)], e);
      assert Apply(Front(b) + [Last(a)], e) == b;
      edits := start + [e];
    }
  }

  lemma {:induction false} AsShort(a: string, b: string) returns (edits: seq<Edit>)
    ensures Turns(a, edits, b) && |edits| == Distance(a, b)
    decreases |a| + |b|
  {
    hide Turns;
    if a == [] && b == [] {
      NoEdits(a);
      edits := [];
    } else if b == [] || (a != [] && Distance(a, b) == Distance(Front(a), b) + 1) {
      edits := AsShort(Front(a), b);
      edits := DeleteFirst(a, edits, b);
    } else if a == [] || Distance(a, b) == Distance(a, Front(b)) + 1 {
      edits := AsShort(a, Front(b));
      edits := InsertLast(a, edits, b);
    } else {
      edits := AsShort(Front(a), Front(b));
      edits := MatchLast(a, edits, b);
    }
  }

  lemma NoEdits(a: string)
    ensures Turns(a, [], a)
  {
  }

  lemma DistanceIsLeast(a: string, b: string)
    ensures IsDistance(a, b, Distance(a, b))
  {
    var edits := AsShort(a, b);
    forall edits | Turns(a, edits, b) ensures Distance(a, b) <= |edits| {
      NoShorter(a, edits, b);
    }
  }

  // ----- the reference solution -----

  /** row[j] is the distance from the first i letters of a to the first j letters of b, for the first n entries. */
  ghost predicate IsRow(a: string, i: nat, b: string, row: seq<nat>, n: nat) {
    && i <= |a| && n <= |row| && n <= |b| + 1
    && forall j :: 0 <= j < n ==> row[j] == Distance(a[..i], b[..j])
  }

  lemma NextEntry(a: string, i: nat, b: string, previous: seq<nat>, current: seq<nat>, j: nat)
    requires i < |a| && j < |b| && IsRow(a, i, b, previous, |b| + 1)
    requires |current| == j + 1 && IsRow(a, i + 1, b, current, j + 1)
    ensures Distance(a[..i + 1], b[..j + 1])
         == Min(Min(previous[j + 1] + 1, current[j] + 1), previous[j] + if a[i] != b[j] then 1 else 0)
  {
    assert Front(a[..i + 1]) == a[..i] && Front(b[..j + 1]) == b[..j];
  }

  method Solve(a: string, b: string) returns (answer: nat)
    ensures IsDistance(a, b, answer)
  {
    var previous: seq<nat> := seq(|b| + 1, j requires j >= 0 => j);
    for i := 0 to |a|
      invariant |previous| == |b| + 1 && IsRow(a, i, b, previous, |b| + 1)
    {
      var ca := a[i];
      var current: seq<nat> := [i + 1];
      for j := 0 to |b|
        invariant |current| == j + 1 && IsRow(a, i + 1, b, current, j + 1)
      {
        var cb := b[j];
        NextEntry(a, i, b, previous, current, j);
        current := current + [Min(Min(previous[j + 1] + 1, current[j] + 1), previous[j] + if ca != cb then 1 else 0)];
      }
      previous := current;
    }
    answer := previous[|b|];
    assert a[..|a|] == a && b[..|b|] == b;
    DistanceIsLeast(a, b);
  }
}
