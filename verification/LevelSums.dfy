/** "Level Sums": the level-order token format of the input generator, and the streaming solution that never rebuilds
    the tree, agree on every binary tree. */
module LevelSums {

  datatype Tree = Nil | Node(value: int, left: Tree, right: Tree)

  datatype Token = Null | Num(value: int)

  // ----- what the statement asks for -----

  /** The sum of the values at depth d. */
  function SumAt(tree: Tree, d: nat): int {
    match tree
    case Nil => 0
    case Node(v, l, r) => if d == 0 then v else SumAt(l, d - 1) + SumAt(r, d - 1)
  }

  function Height(tree: Tree): nat {
    match tree
    case Nil => 0
    case Node(_, l, r) => 1 + if Height(l) > Height(r) then Height(l) else Height(r)
  }

  /** The sum of every level, from the root downwards. */
  function DepthSums(tree: Tree): seq<int> {
    seq(Height(tree), d requires d >= 0 => SumAt(tree, d))
  }

  // ----- the token format -----

  ghost function Value(tree: Tree): seq<int> {
    if tree.Node? then [tree.value] else []
  }

  ghost function Kids(tree: Tree): seq<Tree> {
    if tree.Node? then [tree.left, tree.right] else []
  }

  ghost function Mark(tree: Tree): Token {
    if tree.Node? then Num(tree.value) else Null
  }

  /** The breadth-first listing from a queue of subtrees: a missing child is listed as Null, and has no children. */
  ghost function Listing(queue: seq<Tree>): seq<Token>
    decreases Size(queue)
  {
    if queue == [] then [] else
    KidsSize(queue[0]);
    SizeOfSum(queue[1..], Kids(queue[0]));
    [Mark(queue[0])] + Listing(queue[1..] + Kids(queue[0]))
  }

  ghost function TreeSize(tree: Tree): nat {
    match tree
    case Nil => 1
    case Node(_, l, r) => 1 + TreeSize(l) + TreeSize(r)
  }

  ghost function Size(queue: seq<Tree>): nat {
    if queue == [] then 0 else TreeSize(queue[0]) + Size(queue[1..])
  }

  lemma {:induction false} SizeOfSum(a: seq<Tree>, b: seq<Tree>)
    ensures Size(a + b) == Size(a) + Size(b)
  {
    if a == [] {
      assert a + b == b;
    } else {
      SizeOfSum(a[1..], b);
      assert (a + b)[1..] == a[1..] + b;
    }
  }

  lemma KidsSize(tree: Tree)
    ensures Size(Kids(tree)) + 1 == TreeSize(tree)
  {
    if tree.Node? {
      assert [tree.left, tree.right][1..] == [tree.right];
      assert Size([tree.right]) == TreeSize(tree.right);
    }
  }

  lemma Associative<T>(a: seq<T>, b: seq<T>, c: seq<T>)
    ensures a + (b + c) == (a + b) + c
  {
  }

  function Strip(tokens: seq<Token>): seq<Token> {
    if tokens != [] && tokens[|tokens| - 1] == Null then Strip(tokens[..|tokens| - 1]) else tokens
  }

  /** `short` is `full` without some of its trailing nulls. */
  ghost predicate NullTail(short: seq<Token>, full: seq<Token>) {
    short <= full && forall k :: |short| <= k < |full| ==> full[k] == Null
  }

  lemma {:induction false} StripNulls(tokens: seq<Token>)
    ensures NullTail(Strip(tokens), tokens)
    ensures Strip(tokens) != [] ==> Strip(tokens)[|Strip(tokens)| - 1] != Null
  {
    if tokens != [] && tokens[|tokens| - 1] == Null {
      StripNulls(tokens[..|tokens| - 1]);
    }
  }

  ghost function Serialized(tree: Tree): seq<Token> {
    Strip(Listing([tree]))
  }

  /** The second half of the input generator: walk the tree with a queue, then drop the trailing nulls. */
  method Serialize(tree: Tree) returns (out: seq<Token>)
    ensures out == Serialized(tree)
  {
    out := [];
    var walk := [tree];
    while walk != []
      invariant out + Listing(walk) == Listing([tree])
      decreases Size(walk)
    {
      var node := walk[0];
      KidsSize(node);
      SizeOfSum(walk[1..], Kids(node));
      Associative(out, [Mark(node)], Listing(walk[1..] + Kids(node)));
      walk := walk[1..];
      match node
      case Nil =>
        out := out + [Null];
        assert walk + [] == walk;
      case Node(v, l, r) =>
        out := out + [Num(v)];
        walk := walk + [l, r];
    }
    assert out + Listing([]) == out;
    while out != [] && out[|out| - 1] == Null
      invariant Strip(out) == Strip(Listing([tree]))
    {
      out := out[..|out| - 1];
    }
  }

  // ----- the streaming solution -----

  /** `sum(level)`. */
  function Total(level: seq<int>): int {
    if level == [] then 0 else Total(level[..|level| - 1]) + level[|level| - 1]
  }

  /** The numbers among the tokens. */
  function Numbers(tokens: seq<Token>): seq<int> {
    if tokens == [] then [] else
    var last := tokens[|tokens| - 1];
    Numbers(tokens[..|tokens| - 1]) + if last.Num? then [last.value] else []
  }

  lemma {:induction false} NumbersFew(tokens: seq<Token>)
    ensures |Numbers(tokens)| <= |tokens|
  {
    if tokens != [] { NumbersFew(tokens[..|tokens| - 1]); }
  }

  /** How many tokens a level of n nodes reads: two each, as long as there are any. */
  function Reads(n: nat, available: nat): nat {
    if 2 * n <= available then 2 * n else available
  }

  /** The sums of all levels, the values of the next one being read off the stream. */
  function StreamSums(level: seq<int>, stream: seq<Token>): seq<int>
    decreases |stream| + |level|
  {
    if level == [] then [] else
    var k := Reads(|level|, |stream|);
    NumbersFew(stream[..k]);
    [Total(level)] + StreamSums(Numbers(stream[..k]), stream[k..])
  }

  /** Reads the children of n nodes: two tokens each, while there are any. */
  method ReadLevel(n: nat, stream: seq<Token>) returns (following: seq<int>, rest: seq<Token>)
    ensures following == Numbers(stream[..Reads(n, |stream|)])
    ensures rest == stream[Reads(n, |stream|)..]
  {
    following, rest := [], stream;
    ghost var read := 0;
    for i := 0 to n
      invariant read == Reads(i, |stream|) && rest == stream[read..] && following == Numbers(stream[..read])
    {
      for j := 0 to 2
        invariant read == if 2 * i + j <= |stream| then 2 * i + j else |stream|
        invariant rest == stream[read..] && following == Numbers(stream[..read])
      {
        if rest == [] {
          break;
        }
        assert stream[..read + 1][..read] == stream[..read] && stream[..read + 1][read] == rest[0];
        var token := rest[0];
        rest := rest[1..];
        if token != Null {
          following := following + [token.value];
        }
        read := read + 1;
      }
    }
  }

  method Solve(values: seq<Token>) returns (sums: seq<int>)
    requires values != [] && values[0].Num?
    ensures sums == StreamSums([values[0].value], values[1..])
    ensures forall tree: Tree :: tree.Node? && values == Serialized(tree) ==> sums == DepthSums(tree)
  {
    var stream := values[1..];
    var level := [values[0].value];
    sums := [];
    while level != []
      invariant sums + StreamSums(level, stream) == StreamSums([values[0].value], values[1..])
      decreases |stream| + |level|
    {
      NumbersFew(stream[..Reads(|level|, |stream|)]);
      Associative(sums, [Total(level)], StreamSums(level, stream)[1..]);
      sums := sums + [Total(level)];
      level, stream := ReadLevel(|level|, stream);
    }
    forall tree: Tree | tree.Node? && values == Serialized(tree) ensures sums == DepthSums(tree) {
      RoundTrip(tree);
    }
  }

  // ----- levels of a forest -----

  /** The values of the nodes that are there. */
  ghost function Values(forest: seq<Tree>): seq<int> {
    if forest == [] then [] else Value(forest[0]) + Values(forest[1..])
  }

  /** The two children of every node that is there. */
  ghost function Children(forest: seq<Tree>): seq<Tree> {
    if forest == [] then [] else Kids(forest[0]) + Children(forest[1..])
  }

  ghost function Tokens(forest: seq<Tree>): seq<Token> {
    if forest == [] then [] else [Mark(forest[0])] + Tokens(forest[1..])
  }

  lemma {:induction false} LevelLengths(forest: seq<Tree>)
    ensures |Tokens(forest)| == |forest| && |Children(forest)| == 2 * |Values(forest)|
  {
    if forest != [] { LevelLengths(forest[1..]); }
  }

  /** Going down a level leaves a smaller forest. */
  lemma {:induction false} LevelSize(forest: seq<Tree>)
    ensures Size(Children(forest)) + |forest| == Size(forest)
  {
    if forest != [] {
      LevelSize(forest[1..]);
      KidsSize(forest[0]);
      SizeOfSum(Kids(forest[0]), Children(forest[1..]));
    }
  }

  lemma {:induction false} LevelNumbers(forest: seq<Tree>)
    ensures Numbers(Tokens(forest)) == Values(forest)
  {
    if forest != [] {
      LevelNumbers(forest[1..]);
      NumbersOfSum([Mark(forest[0])], Tokens(forest[1..]));
      assert Numbers([Mark(forest[0])]) == Value(forest[0]) by {
        assert [Mark(forest[0])][..0] == [];
      }
    }
  }

  lemma {:induction false} NumbersOfSum(a: seq<Token>, b: seq<Token>)
    ensures Numbers(a + b) == Numbers(a) + Numbers(b)
    decreases |b|
  {
    if b == [] {
      assert a + b == a;
    } else {
      NumbersOfSum(a, b[..|b| - 1]);
      assert (a + b)[..|a + b| - 1] == a + b[..|b| - 1];
      var last := b[|b| - 1];
      assert Numbers(a) + (Numbers(b[..|b| - 1]) + if last.Num? then [last.value] else [])
          == Numbers(a) + Numbers(b[..|b| - 1]) + if last.Num? then [last.value] else [];
    }
  }

  /** The listing goes level by level. */
  lemma {:induction false} ListingByLevel(a: seq<Tree>, b: seq<Tree>)
    ensures Listing(a + b) == Tokens(a) + Listing(b + Children(a))
    decreases |a|
  {
    if a == [] {
      assert a + b == b && b + [] == b;
    } else {
      assert (a + b)[1..] == a[1..] + b;
      Associative(a[1..], b, Kids(a[0]));
      ListingByLevel(a[1..], b + Kids(a[0]));
      Associative(b, Kids(a[0]), Children(a[1..]));
    }
  }

  // ----- left before right -----

  /** What a tree shows at depth d, from left to right: its nodes there, and a Null for each child missing there. */
  ghost function RowAt(tree: Tree, d: nat): seq<Token> {
    match tree
    case Nil => if d == 0 then [Null] else []
    case Node(v, l, r) => if d == 0 then [Num(v)] else RowAt(l, d - 1) + RowAt(r, d - 1)
  }

  ghost function RowsAt(forest: seq<Tree>, d: nat): seq<Token> {
    if forest == [] then [] else RowAt(forest[0], d) + RowsAt(forest[1..], d)
  }

  /** The rows from depth d down to depth d + n - 1, one after the other. */
  ghost function RowsFrom(forest: seq<Tree>, d: nat, n: nat): seq<Token>
    decreases n
  {
    if n == 0 then [] else RowsAt(forest, d) + RowsFrom(forest, d + 1, n - 1)
  }

  lemma {:induction false} RowsOfSum(a: seq<Tree>, b: seq<Tree>, d: nat)
    ensures RowsAt(a + b, d) == RowsAt(a, d) + RowsAt(b, d)
  {
    if a == [] {
      assert a + b == b;
    } else {
      assert (a + b)[1..] == a[1..] + b;
      RowsOfSum(a[1..], b, d);
      Associative(RowAt(a[0], d), RowsAt(a[1..], d), RowsAt(b, d));
    }
  }

  lemma {:induction false} RowsOfChildren(forest: seq<Tree>, d: nat)
    ensures RowsAt(Children(forest), d) == RowsAt(forest, d + 1)
  {
    if forest != [] {
      RowsOfChildren(forest[1..], d);
      RowsOfSum(Kids(forest[0]), Children(forest[1..]), d);
      RowsOfKids(forest[0], d);
    }
  }

  lemma RowsOfKids(tree: Tree, d: nat)
    ensures RowsAt(Kids(tree), d) == RowAt(tree, d + 1)
  {
    if tree.Node? {
      assert [tree.left, tree.right][1..] == [tree.right];
      assert RowsAt([tree.right], d) == RowAt(tree.right, d) + RowsAt([], d);
    }
  }

  lemma {:induction false} TokensAreRow(forest: seq<Tree>)
    ensures Tokens(forest) == RowsAt(forest, 0)
  {
    if forest != [] { TokensAreRow(forest[1..]); }
  }

  lemma {:induction false} RowsFromChildren(forest: seq<Tree>, d: nat, n: nat)
    ensures RowsFrom(Children(forest), d, n) == RowsFrom(forest, d + 1, n)
    decreases n
  {
    if n > 0 {
      RowsOfChildren(forest, d);
      RowsFromChildren(forest, d + 1, n - 1);
    }
  }

  /** The listing shows the levels from the root down, each from left to right, as far as there is anything. */
  lemma {:induction false} ListingIsRows(forest: seq<Tree>, n: nat)
    requires n >= Size(forest)
    ensures Listing(forest) == RowsFrom(forest, 0, n)
    decreases Size(forest)
  {
    if forest == [] {
      NoRows(0, n);
    } else {
      ListingByLevel(forest, []);
      assert forest + [] == forest && [] + Children(forest) == Children(forest);
      LevelSize(forest);
      ListingIsRows(Children(forest), n - 1);
      TokensAreRow(forest);
      RowsFromChildren(forest, 0, n - 1);
    }
  }

  lemma {:induction false} NoRows(d: nat, n: nat)
    ensures RowsFrom([], d, n) == []
    decreases n
  {
    if n > 0 { NoRows(d + 1, n - 1); }
  }

  /** The tokens of a tree are its levels from the root down, each from left to right, without the trailing nulls. */
  lemma SerializedIsRows(tree: Tree)
    ensures NullTail(Serialized(tree), RowsFrom([tree], 0, TreeSize(tree)))
    ensures Serialized(tree) != [] ==> Serialized(tree)[|Serialized(tree)| - 1] != Null
  {
    assert Size([tree]) == TreeSize(tree);
    ListingIsRows([tree], TreeSize(tree));
    StripNulls(Listing([tree]));
  }

  ghost function LevelwiseSums(forest: seq<Tree>): seq<int>
    decreases Size(forest)
  {
    if Values(forest) == [] then [] else
    LevelSize(forest);
    [Total(Values(forest))] + LevelwiseSums(Children(forest))
  }

  /** Streaming over the listing of the children, with or without its trailing nulls, sums level by level. */
  lemma {:induction false} StreamIsLevelwise(forest: seq<Tree>, stream: seq<Token>)
    requires NullTail(stream, Listing(Children(forest)))
    ensures StreamSums(Values(forest), stream) == LevelwiseSums(forest)
    decreases Size(forest)
  {
    if Values(forest) != [] {
      var next := Children(forest);
      LevelLengths(forest);
      LevelLengths(next);
      LevelSize(forest);
      LevelNumbers(next);
      ListingByLevel(next, []);
      assert next + [] == next && [] + Children(next) == Children(next);
      var k := Reads(|Values(forest)|, |stream|);
      NullTailSplit(stream, Tokens(next), Listing(Children(next)), k);
      NullsAddNothing(stream[..k], Tokens(next));
      StreamIsLevelwise(next, stream[k..]);
    }
  }

  lemma NullTailSplit(short: seq<Token>, a: seq<Token>, b: seq<Token>, k: nat)
    requires NullTail(short, a + b)
    requires k == if |a| <= |short| then |a| else |short|
    ensures NullTail(short[..k], a) && NullTail(short[k..], b)
  {
    forall i | k <= i < |a| ensures a[i] == Null {
      assert (a + b)[i] == a[i];
    }
    forall i | |short[k..]| <= i < |b| ensures b[i] == Null {
      assert (a + b)[|a| + i] == b[i];
    }
    forall i | 0 <= i < |short| ensures short[i] == (a + b)[i] { }
    assert short[..k] == a[..k];
    if |a| <= |short| {
      assert short[k..] == b[..|short| - k];
    }
  }

  lemma {:induction false} NullsAddNothing(short: seq<Token>, full: seq<Token>)
    requires NullTail(short, full)
    ensures Numbers(short) == Numbers(full)
    decreases |full|
  {
    if |short| < |full| {
      NullsAddNothing(short, full[..|full| - 1]);
    } else {
      assert short == full;
    }
  }

  // ----- level by level and depth by depth are the same sums -----

  function Entry(sums: seq<int>, d: nat): int {
    if d < |sums| then sums[d] else 0
  }

  lemma {:induction false} ValuesOfSum(a: seq<Tree>, b: seq<Tree>)
    ensures Values(a + b) == Values(a) + Values(b)
  {
    if a == [] {
      assert a + b == b;
    } else {
      ValuesOfSum(a[1..], b);
      assert (a + b)[1..] == a[1..] + b;
      Associative(Value(a[0]), Values(a[1..]), Values(b));
    }
  }

  lemma {:induction false} ChildrenOfSum(a: seq<Tree>, b: seq<Tree>)
    ensures Children(a + b) == Children(a) + Children(b)
  {
    if a == [] {
      assert a + b == b;
    } else {
      ChildrenOfSum(a[1..], b);
      assert (a + b)[1..] == a[1..] + b;
      Associative(Kids(a[0]), Children(a[1..]), Children(b));
    }
  }

  lemma {:induction false} TotalOfSum(a: seq<int>, b: seq<int>)
    ensures Total(a + b) == Total(a) + Total(b)
    decreases |b|
  {
    if b == [] {
      assert a + b == a;
    } else {
      TotalOfSum(a, b[..|b| - 1]);
      assert (a + b)[..|a + b| - 1] == a + b[..|b| - 1];
    }
  }

  /** `sums` has as many entries as the longer of the two and adds them up. */
  ghost predicate Adds(sums: seq<int>, a: seq<int>, b: seq<int>) {
    && |sums| == (if |a| > |b| then |a| else |b|)
    && forall d :: 0 <= d < |sums| ==> sums[d] == Entry(a, d) + Entry(b, d)
  }

  lemma AddsCons(x: int, sums: seq<int>, a: seq<int>, b: seq<int>, a': seq<int>, b': seq<int>)
    requires Adds(sums, a, b)
    requires a' != [] ==> a'[1..] == a
    requires b' != [] ==> b'[1..] == b
    requires a' == [] ==> a == []
    requires b' == [] ==> b == []
    requires a' != [] || b' != []
    requires x == Entry(a', 0) + Entry(b', 0)
    ensures Adds([x] + sums, a', b')
  {
    forall d | 1 <= d < |[x] + sums| ensures ([x] + sums)[d] == Entry(a', d) + Entry(b', d) {
      assert Entry(a', d) == Entry(a, d - 1) && Entry(b', d) == Entry(b, d - 1);
    }
  }

  /** The first level of a forest and the rest. */
  lemma LevelwiseUnfold(forest: seq<Tree>)
    ensures Values(forest) == [] ==> LevelwiseSums(forest) == [] && LevelwiseSums(Children(forest)) == []
    ensures Values(forest) != [] ==>
      && LevelwiseSums(forest) != [] && LevelwiseSums(forest)[0] == Total(Values(forest))
      && LevelwiseSums(forest)[1..] == LevelwiseSums(Children(forest))
  {
    LevelLengths(forest);
    if Values(forest) == [] {
      assert Children(forest) == [] && Values([]) == [];
    }
  }

  /** Two forests side by side: as many levels as the taller one, and the sums add up. */
  lemma {:induction false} SideBySide(a: seq<Tree>, b: seq<Tree>)
    ensures Adds(LevelwiseSums(a + b), LevelwiseSums(a), LevelwiseSums(b))
    decreases Size(a + b)
  {
    ValuesOfSum(a, b);
    ChildrenOfSum(a, b);
    LevelwiseUnfold(a);
    LevelwiseUnfold(b);
    LevelwiseUnfold(a + b);
    if Values(a + b) != [] {
      LevelSize(a + b);
      SideBySide(Children(a), Children(b));
      TotalOfSum(Values(a), Values(b));
      AddsCons(Total(Values(a + b)), LevelwiseSums(Children(a + b)),
               LevelwiseSums(Children(a)), LevelwiseSums(Children(b)), LevelwiseSums(a), LevelwiseSums(b));
    }
  }

  lemma SingleTree(tree: Tree)
    ensures Values([tree]) == Value(tree) && Children([tree]) == Kids(tree) && Tokens([tree]) == [Mark(tree)]
  {
    assert [tree][1..] == [];
  }

  lemma {:induction false} LevelwiseIsByDepth(tree: Tree)
    ensures LevelwiseSums([tree]) == DepthSums(tree)
  {
    SingleTree(tree);
    LevelwiseUnfold([tree]);
    if tree.Node? {
      LevelwiseIsByDepth(tree.left);
      LevelwiseIsByDepth(tree.right);
      assert [tree.left, tree.right] == [tree.left] + [tree.right];
      SideBySide([tree.left], [tree.right]);
      assert [tree.value][..0] == [];
      BelowRoot(tree, LevelwiseSums([tree.left, tree.right]));
    }
  }

  lemma BelowRoot(tree: Tree, below: seq<int>)
    requires tree.Node? && Adds(below, DepthSums(tree.left), DepthSums(tree.right))
    ensures [tree.value] + below == DepthSums(tree)
  {
    forall d: nat | d < |below| ensures below[d] == SumAt(tree.left, d) + SumAt(tree.right, d) {
      NothingBelow(tree.left, d);
      NothingBelow(tree.right, d);
    }
  }

  lemma {:induction false} NothingBelow(tree: Tree, d: nat)
    ensures d >= Height(tree) ==> SumAt(tree, d) == 0
  {
    if tree.Node? && d > 0 {
      NothingBelow(tree.left, d - 1);
      NothingBelow(tree.right, d - 1);
    }
  }

  lemma SerializedStarts(tree: Tree)
    requires tree.Node?
    ensures Serialized(tree) != [] && Serialized(tree)[0] == Num(tree.value)
    ensures NullTail(Serialized(tree)[1..], Listing(Children([tree])))
  {
    var full := Listing([tree]);
    StripNulls(full);
    SingleTree(tree);
    ListingByLevel([tree], []);
    assert [tree] + [] == [tree] && [] + Children([tree]) == Children([tree]);
    assert full[0] == Num(tree.value);
    NullTailSplit(Serialized(tree), [Num(tree.value)], Listing(Children([tree])), 1);
  }

  /** Serializing any tree and streaming over the tokens gives the sum of every level. */
  lemma RoundTrip(tree: Tree)
    requires tree.Node?
    ensures var tokens := Serialized(tree);
            tokens != [] && tokens[0] == Num(tree.value) && StreamSums([tree.value], tokens[1..]) == DepthSums(tree)
  {
    SerializedStarts(tree);
    SingleTree(tree);
    StreamIsLevelwise([tree], Serialized(tree)[1..]);
    LevelwiseIsByDepth(tree);
  }
}
