/** "Queens Standoff": counting queen placements with three bitmasks of attacked squares. */
module QueensStandoff {
  import opened SetFacts
  import opened PythonBits

  // ----- what the statement asks for -----

  type Square = (nat, nat)  // (row, column)

  /** The two squares share a row, a column or a diagonal. */
  predicate Attack(s: Square, t: Square) {
    s.0 == t.0 || s.1 == t.1 || s.0 + s.1 == t.0 + t.1 || s.0 + t.1 == t.0 + s.1
  }

  /** n queens on the n x n board, none attacking another. */
  ghost predicate IsArrangement(n: nat, queens: set<Square>) {
    && |queens| == n
    && (forall s :: s in queens ==> s.0 < n && s.1 < n)
    && (forall s, t :: s in queens && t in queens && s != t ==> !Attack(s, t))
  }

  /** `count` is the number of arrangements. */
  ghost predicate CountsArrangements(n: nat, count: int) {
    exists all: set<set<Square>> :: (forall queens :: queens in all <==> IsArrangement(n, queens)) && |all| == count
  }

  // ----- one queen a row -----

  /** Queens in the first rows, board[r] being the column of the queen in row r, none attacking another. */
  ghost predicate Safe(n: nat, board: seq<nat>) {
    && (forall r :: 0 <= r < |board| ==> board[r] < n)
    && (forall r, s :: 0 <= r < s < |board| ==> !Attack((r, board[r]), (s, board[s])))
  }

  ghost function Boards(n: nat, rows: nat): (all: set<seq<nat>>)
  {
    if rows == 0 then {[]} else
    set board, c: nat | board in Boards(n, rows - 1) && c < n :: board + [c]
  }

  lemma {:induction false} BoardsAll(n: nat, rows: nat, board: seq<nat>)
    ensures board in Boards(n, rows) <==> |board| == rows && forall r :: 0 <= r < rows ==> board[r] < n
    decreases rows
  {
    if rows > 0 {
      if |board| > 0 {
        var front := board[..|board| - 1];
        BoardsAll(n, rows - 1, front);
        assert board == front + [board[|board| - 1]];
      }
      if board in Boards(n, rows) {
        var front, c: nat :| front in Boards(n, rows - 1) && c < n && board == front + [c];
        assert front == board[..|board| - 1];
      }
    }
  }

  /** The full safe boards that begin with `board`. */
  ghost function Completions(n: nat, board: seq<nat>): set<seq<nat>> {
    set full | full in Boards(n, n) && Safe(n, full) && board <= full
  }

  /** Those that go on with a column from `tried`. */
  ghost function CompletionsVia(n: nat, board: seq<nat>, tried: set<nat>): set<seq<nat>>
    requires |board| < n
  {
    set full | full in Completions(n, board) && |full| == n && full[|board|] in tried
  }

  lemma CompletionsAre(n: nat, board: seq<nat>, full: seq<nat>)
    ensures full in Completions(n, board) <==> |full| == n && Safe(n, full) && board <= full
  {
    BoardsAll(n, n, full);
  }

  /** Trying one more column adds the completions of the longer board. */
  lemma TryColumn(n: nat, board: seq<nat>, tried: set<nat>, c: nat)
    requires |board| < n && c !in tried
    ensures |CompletionsVia(n, board, tried + {c})| == |CompletionsVia(n, board, tried)| + |Completions(n, board + [c])|
  {
    var via, next := CompletionsVia(n, board, tried), Completions(n, board + [c]);
    forall full ensures full in CompletionsVia(n, board, tried + {c}) <==> full in via || full in next {
      CompletionsAre(n, board, full);
      CompletionsAre(n, board + [c], full);
      if board <= full && |full| == n {
        assert full[..|board| + 1] == board + [full[|board|]];
      }
      if board + [c] <= full {
        assert (board + [c])[..|board|] == board;
        assert full[|board|] == (board + [c])[|board|];
      }
    }
    assert CompletionsVia(n, board, tried + {c}) == via + next;
    forall full | full in next ensures full !in via {
      CompletionsAre(n, board + [c], full);
      assert full[|board|] == (board + [c])[|board|];
    }
    assert via !! next;
  }

  /** Once every safe column has been tried, nothing is missing. */
  lemma TriedAll(n: nat, board: seq<nat>, tried: set<nat>)
    requires |board| < n
    requires forall c: nat :: Safe(n, board + [c]) ==> c in tried
    ensures CompletionsVia(n, board, tried) == Completions(n, board)
  {
    forall full | full in Completions(n, board) ensures full in CompletionsVia(n, board, tried) {
      CompletionsAre(n, board, full);
      SafePrefix(n, full, |board| + 1);
      assert full[..|board| + 1] == board + [full[|board|]];
    }
  }

  lemma SafePrefix(n: nat, board: seq<nat>, k: nat)
    requires Safe(n, board) && k <= |board|
    ensures Safe(n, board[..k])
  {
  }

  lemma SafeExtend(n: nat, board: seq<nat>, c: nat)
    requires Safe(n, board)
    ensures Safe(n, board + [c]) <==> c < n && forall r :: 0 <= r < |board| ==> !Attack((r, board[r]), (|board|, c))
  {
    var longer := board + [c];
    if Safe(n, longer) {
      assert longer[|board|] == c;
      forall r | 0 <= r < |board| ensures !Attack((r, board[r]), (|board|, c)) {
        assert longer[r] == board[r];
      }
    }
  }

  // ----- the masks -----

  /** The three masks hold exactly the squares of the next row that the queens on `board` attack: straight down, and
      along the diagonals going right and going left. */
  ghost predicate Masks(n: nat, board: seq<nat>, cols: nat, diag1: nat, diag2: nat) {
    forall c: nat :: MasksAt(n, board, cols, diag1, diag2, c)
  }

  ghost predicate MasksAt(n: nat, board: seq<nat>, cols: nat, diag1: nat, diag2: nat, c: nat) {
    && (Has(cols, c) <==> exists r :: 0 <= r < |board| && board[r] == c)
    && (Has(diag1, c) <==> c < n && exists r :: 0 <= r < |board| && board[r] + |board| == c + r)
    && (Has(diag2, c) <==> exists r :: 0 <= r < |board| && board[r] + r == c + |board|)
  }

  /** A column is free in all three masks exactly when a queen there is safe. */
  lemma FreeIsSafe(n: nat, board: seq<nat>, cols: nat, diag1: nat, diag2: nat, free: int, c: nat)
    requires Safe(n, board) && Masks(n, board, cols, diag1, diag2)
    requires free == And(Pow2(n) - 1, Not(Or(Or(cols, diag1), diag2)))
    ensures Has(free, c) <==> Safe(n, board + [c])
  {
    HasFree(n, cols, diag1, diag2, c);
    SafeExtend(n, board, c);
    assert MasksAt(n, board, cols, diag1, diag2, c);
  }

  lemma HasFree(n: nat, cols: nat, diag1: nat, diag2: nat, c: nat)
    ensures Has(And(Pow2(n) - 1, Not(Or(Or(cols, diag1), diag2))), c)
       <==> c < n && !Has(cols, c) && !Has(diag1, c) && !Has(diag2, c)
  {
    HasFull(n, c);
    HasOr(cols, diag1, c);
    HasOr(Or(cols, diag1), diag2, c);
    HasNot(Or(Or(cols, diag1), diag2), c);
    HasAnd(Pow2(n) - 1, Not(Or(Or(cols, diag1), diag2)), c);
  }

  /** Placing a queen in column c and going down a row: the shifted masks are the masks of the longer board. */
  lemma MasksNext(n: nat, board: seq<nat>, cols: nat, diag1: nat, diag2: nat, c: nat)
    requires Masks(n, board, cols, diag1, diag2) && c < n
    ensures var bit := Pow2(c);
            && Or(cols, bit) >= 0 && And(2 * Or(diag1, bit), Pow2(n) - 1) >= 0 && Or(diag2, bit) / 2 >= 0
            && Masks(n, board + [c], Or(cols, bit), And(2 * Or(diag1, bit), Pow2(n) - 1), Or(diag2, bit) / 2)
  {
    var bit := Pow2(c);
    NaturalBits(cols, bit);
    NaturalBits(diag1, bit);
    NaturalBits(diag2, bit);
    NaturalBits(2 * Or(diag1, bit), Pow2(n) - 1);
    var longer, cols' := board + [c], Or(cols, bit);
    var diag1', diag2' := And(2 * Or(diag1, bit), Pow2(n) - 1), Or(diag2, bit) / 2;
    forall x: nat ensures MasksAt(n, longer, cols', diag1', diag2', x) {
      MasksNextAt(n, board, cols, diag1, diag2, c, x);
    }
  }

  lemma MasksNextAt(n: nat, board: seq<nat>, cols: nat, diag1: nat, diag2: nat, c: nat, x: nat)
    requires Masks(n, board, cols, diag1, diag2) && c < n
    requires Or(cols, Pow2(c)) >= 0 && And(2 * Or(diag1, Pow2(c)), Pow2(n) - 1) >= 0 && Or(diag2, Pow2(c)) / 2 >= 0
    ensures var bit := Pow2(c);
            MasksAt(n, board + [c], Or(cols, bit), And(2 * Or(diag1, bit), Pow2(n) - 1), Or(diag2, bit) / 2, x)
  {
    StraightNext(n, board, cols, diag1, diag2, c, x);
    RightNext(n, board, cols, diag1, diag2, c, x);
    LeftNext(n, board, cols, diag1, diag2, c, x);
  }

  lemma StraightNext(n: nat, board: seq<nat>, cols: nat, diag1: nat, diag2: nat, c: nat, x: nat)
    requires Masks(n, board, cols, diag1, diag2)
    ensures var longer := board + [c]; Has(Or(cols, Pow2(c)), x) <==> exists r :: 0 <= r < |longer| && longer[r] == x
  {
    var longer := board + [c];
    assert MasksAt(n, board, cols, diag1, diag2, x);
    HasOr(cols, Pow2(c), x);
    HasPow2(c, x);
    assert longer[|board|] == c;
    if r :| 0 <= r < |board| && board[r] == x { assert longer[r] == x; }
  }

  lemma RightNext(n: nat, board: seq<nat>, cols: nat, diag1: nat, diag2: nat, c: nat, x: nat)
    requires Masks(n, board, cols, diag1, diag2) && c < n
    ensures var longer := board + [c];
            Has(And(2 * Or(diag1, Pow2(c)), Pow2(n) - 1), x)
            <==> x < n && exists r :: 0 <= r < |longer| && longer[r] + |longer| == x + r
  {
    var longer, shifted := board + [c], 2 * Or(diag1, Pow2(c));
    HasAnd(shifted, Pow2(n) - 1, x);
    HasFull(n, x);
    assert longer[|board|] == c;
    if x > 0 {
      assert MasksAt(n, board, cols, diag1, diag2, x - 1);
      assert shifted / 2 == Or(diag1, Pow2(c));
      HasOr(diag1, Pow2(c), x - 1);
      HasPow2(c, x - 1);
      if r :| 0 <= r < |board| && board[r] + |board| == x - 1 + r { assert longer[r] + |longer| == x + r; }
      if r :| 0 <= r < |longer| && longer[r] + |longer| == x + r {
        if r < |board| { assert board[r] + |board| == x - 1 + r; }
      }
    }
  }

  lemma LeftNext(n: nat, board: seq<nat>, cols: nat, diag1: nat, diag2: nat, c: nat, x: nat)
    requires Masks(n, board, cols, diag1, diag2)
    ensures var longer := board + [c];
            Has(Or(diag2, Pow2(c)) / 2, x) <==> exists r :: 0 <= r < |longer| && longer[r] + r == x + |longer|
  {
    var longer := board + [c];
    assert MasksAt(n, board, cols, diag1, diag2, x + 1);
    HasOr(diag2, Pow2(c), x + 1);
    HasPow2(c, x + 1);
    assert longer[|board|] == c;
    if r :| 0 <= r < |board| && board[r] + r == x + 1 + |board| { assert longer[r] + r == x + |longer|; }
    if r :| 0 <= r < |longer| && longer[r] + r == x + |longer| {
      if r < |board| { assert board[r] + r == x + 1 + |board|; }
    }
  }

  /** The column mask is full exactly when every row has its queen. */
  lemma FullMask(n: nat, board: seq<nat>, cols: nat, diag1: nat, diag2: nat)
    requires Safe(n, board) && Masks(n, board, cols, diag1, diag2)
    ensures cols == Pow2(n) - 1 <==> |board| == n
    ensures |board| <= n
  {
    var used := set r | 0 <= r < |board| :: board[r];
    RangeSize(n);
    UsedSize(n, board, |board|);
    SubsetSize(used, Range(n));
    if |board| == n {
      forall c: nat ensures Has(cols, c) <==> Has(Pow2(n) - 1, c) {
        HasFull(n, c);
        assert MasksAt(n, board, cols, diag1, diag2, c);
        if c < n { assert c in used; }
      }
      SameBits(cols, Pow2(n) - 1);
    }
    if cols == Pow2(n) - 1 {
      forall c | c in Range(n) ensures c in used {
        HasFull(n, c);
        assert MasksAt(n, board, cols, diag1, diag2, c);
      }
      assert used == Range(n);
    }
  }

  lemma {:induction false} UsedSize(n: nat, board: seq<nat>, k: nat)
    requires Safe(n, board) && k <= |board|
    ensures |set r | 0 <= r < k :: board[r]| == k
  {
    if k > 0 {
      UsedSize(n, board, k - 1);
      var fewer := set r | 0 <= r < k - 1 :: board[r];
      assert (set r | 0 <= r < k :: board[r]) == fewer + {board[k - 1]};
      forall r | 0 <= r < k - 1 ensures board[r] != board[k - 1] {
        assert !Attack((r, board[r]), (k - 1, board[k - 1]));
      }
    }
  }

  // ----- the reference solution -----

  /** Counts the ways to complete `board`, of which the program itself only keeps the masks. */
  method Place(n: nat, cols: nat, diag1: nat, diag2: nat, ghost board: seq<nat>) returns (total: nat)
    requires Safe(n, board) && Masks(n, board, cols, diag1, diag2)
    ensures total == |Completions(n, board)|
    decreases n - |board|
  {
    var full := Pow2(n) - 1;
    FullMask(n, board, cols, diag1, diag2);
    if cols == full {
      forall b ensures b in Completions(n, board) <==> b == board {
        CompletionsAre(n, board, b);
      }
      assert Completions(n, board) == {board};
      return 1;
    }
    total := 0;
    var free := And(full, Not(Or(Or(cols, diag1), diag2)));
    ghost var tried: set<nat> := {};
    forall c: nat ensures Has(free, c) <==> Safe(n, board + [c]) {
      FreeIsSafe(n, board, cols, diag1, diag2, free, c);
    }
    FreeNatural(full, Or(Or(cols, diag1), diag2));
    while free != 0
      invariant free >= 0
      invariant forall c: nat :: Has(free, c) <==> Safe(n, board + [c]) && c !in tried
      invariant total == |CompletionsVia(n, board, tried)|
      decreases free
    {
      ghost var c := LowestBit(free);
      var bit := And(free, -free);
      ghost var was := free;
      free := Xor(free, bit);
      assert Safe(n, board + [c]);
      SafeExtend(n, board, c);
      MasksNext(n, board, cols, diag1, diag2, c);
      var count := Place(n, Or(cols, bit), And(2 * Or(diag1, bit), full), Or(diag2, bit) / 2, board + [c]);
      TryColumn(n, board, tried, c);
      total := total + count;
      forall x: nat ensures Has(free, x) <==> Has(was, x) && x != c {
        HasXor(was, bit, x);
        HasPow2(c, x);
      }
      tried := tried + {c};
    }
    forall c: nat ensures Safe(n, board + [c]) ==> c in tried {
      HasConstant(c);
    }
    TriedAll(n, board, tried);
  }

  lemma {:induction false} FreeNatural(full: nat, attacked: int)
    ensures And(full, Not(attacked)) >= 0
    decreases full
  {
    if full > 0 && Not(attacked) != 0 && Not(attacked) != -1 {
      assert Not(attacked) / 2 == Not(attacked / 2);
      FreeNatural(full / 2, attacked / 2);
    }
  }

  /** The number of ways to place n queens so that no two attack each other. */
  method Solve(n: nat) returns (count: nat)
    ensures CountsArrangements(n, count)
  {
    NoMasks(n);
    count := Place(n, 0, 0, 0, []);
    BoardsAreArrangements(n);
  }

  lemma NoMasks(n: nat)
    ensures Masks(n, [], 0, 0, 0)
  {
    forall c: nat ensures MasksAt(n, [], 0, 0, 0, c) { HasConstant(c); }
  }

  // ----- boards and arrangements are the same thing -----

  ghost function Squares(board: seq<nat>): set<Square> {
    set r: nat | r < |board| :: (r, board[r])
  }

  lemma {:induction false} SquaresSize(board: seq<nat>)
    ensures |Squares(board)| == |board|
  {
    if board != [] {
      var front, r := board[..|board| - 1], |board| - 1;
      SquaresSize(front);
      assert Squares(board) == Squares(front) + {(r, board[r])} by {
        forall s | s in Squares(board) && s != (r, board[r]) ensures s in Squares(front) {
          assert s.0 < |front| && front[s.0] == s.1;
        }
        forall s | s in Squares(front) ensures s in Squares(board) {
          assert board[s.0] == s.1;
        }
      }
      assert (r, board[r]) !in Squares(front);
    }
  }

  lemma BoardIsArrangement(n: nat, board: seq<nat>)
    requires |board| == n && Safe(n, board)
    ensures IsArrangement(n, Squares(board))
  {
    SquaresSize(board);
    forall s, t | s in Squares(board) && t in Squares(board) && s != t ensures !Attack(s, t) {
      if s.0 < t.0 {
        assert !Attack((s.0, board[s.0]), (t.0, board[t.0]));
      } else {
        assert s.0 != t.0;
        assert !Attack((t.0, board[t.0]), (s.0, board[s.0]));
      }
    }
  }

  ghost predicate HasQueen(queens: set<Square>, r: nat) {
    exists c: nat :: (r, c) in queens
  }

  /** n queens, one a row at most, in n rows: one in every row. */
  lemma ArrangementIsBoard(n: nat, queens: set<Square>) returns (board: seq<nat>)
    requires IsArrangement(n, queens)
    ensures |board| == n && Safe(n, board) && Squares(board) == queens
  {
    var row: Square -> nat := (s: Square) => s.0;
    var rows := Image(queens, row);
    forall s, t | s in queens && t in queens && row(s) == row(t) ensures s == t {
      assert s != t ==> !Attack(s, t);
    }
    ImageSize(queens, row);
    RangeSize(n);
    SubsetSize(rows, Range(n));
    forall r: nat | r < n ensures HasQueen(queens, r) {
      assert r in rows;
      var s: Square :| s in queens && row(s) == r;
      assert (r, s.1) in queens;
    }
    board := BuildBoard(n, queens, n);
    SquaresSize(board);
    assert Squares(board) <= queens;
    SubsetSize(Squares(board), queens);
    forall r, s | 0 <= r < s < n ensures !Attack((r, board[r]), (s, board[s])) {
      assert (r, board[r]) in queens && (s, board[s]) in queens;
    }
  }

  lemma {:induction false} BuildBoard(n: nat, queens: set<Square>, k: nat) returns (board: seq<nat>)
    requires k <= n
    requires forall s :: s in queens ==> s.0 < n && s.1 < n
    requires forall r: nat :: r < n ==> HasQueen(queens, r)
    ensures |board| == k
    ensures forall r: nat :: r < k ==> (r, board[r]) in queens && board[r] < n
  {
    if k == 0 {
      board := [];
    } else {
      board := BuildBoard(n, queens, k - 1);
      assert HasQueen(queens, k - 1);
      var c: nat :| (k - 1, c) in queens;
      board := board + [c];
    }
  }

  lemma BoardsAreArrangements(n: nat)
    ensures CountsArrangements(n, |Completions(n, [])|)
  {
    var boards := Completions(n, []);
    var squares: seq<nat> -> set<Square> := (b: seq<nat>) => Squares(b);
    var all := Image(boards, squares);
    forall b, b' | b in boards && b' in boards && squares(b) == squares(b') ensures b == b' {
      CompletionsAre(n, [], b);
      CompletionsAre(n, [], b');
      forall r: nat | r < n ensures b[r] == b'[r] {
        assert (r, b[r]) in Squares(b');
      }
    }
    ImageSize(boards, squares);
    forall queens ensures queens in all <==> IsArrangement(n, queens) {
      if queens in all {
        var b :| b in boards && squares(b) == queens;
        CompletionsAre(n, [], b);
        BoardIsArrangement(n, b);
      }
      if IsArrangement(n, queens) {
        var b := ArrangementIsBoard(n, queens);
        CompletionsAre(n, [], b);
        assert squares(b) in all;
      }
    }
  }
}
