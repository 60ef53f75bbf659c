/** Contest standings: one grouped pass over the submissions of a contest. Times are microseconds since the lowest
    timestamp there is. */
module Standings {
  import opened Wrappers
  import opened Verdicts
  import opened SubmissionStore
  import opened PythonSorted
  import SetFacts

  datatype Row = Row(user: Id, problem: Id, status: Status, verdict: Option<Verdict>, createdAt: int)

  datatype ContestProblem = ContestProblem(problem: Id, points: nat)

  datatype Contest = Contest(start: int, end: int, penaltyMinutes: nat, problems: seq<ContestProblem>)

  datatype Cell = Cell(solved: bool, attempts: nat, penalty: int)

  datatype StandingsRow = StandingsRow(rank: nat, user: Id, points: nat, penalty: int, cells: seq<Cell>)

  const MINUTE := 60_000_000

  /** `datetime.min`. */
  const NOTHING_YET := 0

  /** A problem may appear only once in a contest. */
  predicate ValidContest(c: Contest) {
    && 0 <= c.start < c.end
    && forall m, n :: 0 <= m < n < |c.problems| ==> c.problems[m].problem != c.problems[n].problem
  }

  /** What the query returns: rows of the contest's time window, ordered by `created_at`. */
  predicate ValidRows(c: Contest, rows: seq<Row>) {
    && (forall i :: 0 <= i < |rows| ==> c.start <= rows[i].createdAt <= c.end)
    && (forall i, j :: 0 <= i < j < |rows| ==> rows[i].createdAt <= rows[j].createdAt)
  }

  // ----- the score of one participant on one problem, straight from the rows -----

  /** Judged to the end. */
  predicate Scored(r: Row) {
    r.status == COMPLETED && r.verdict.Some?
  }

  predicate IsFor(r: Row, u: Id, p: Id) {
    r.user == u && r.problem == p
  }

  predicate Accepts(r: Row, u: Id, p: Id) {
    IsFor(r, u, p) && Scored(r) && r.verdict.value == ACCEPTED
  }

  /** A verdict about the solution other than ACCEPTED. */
  predicate Misses(r: Row, u: Id, p: Id) {
    IsFor(r, u, p) && Scored(r) && r.verdict.value != ACCEPTED
    && r.verdict.value != SYSTEM_ERROR && r.verdict.value != COMPILATION_ERROR
  }

  /** When the problem was first solved, and the misses before that. */
  datatype Score = Score(solvedAt: Option<int>, wrong: nat)

  function ScoreOf(rows: seq<Row>, u: Id, p: Id): Score {
    if rows == [] then Score(None, 0)
    else if Accepts(rows[0], u, p) then Score(Some(rows[0].createdAt), 0)
    else
      var rest := ScoreOf(rows[1..], u, p);
      if Misses(rows[0], u, p) then rest.(wrong := rest.wrong + 1) else rest
  }

  /** The misses among the first k rows. */
  ghost function MissesBefore(rows: seq<Row>, u: Id, p: Id, k: nat): set<nat>
    requires k <= |rows|
  {
    set j: nat | j < k && Misses(rows[j], u, p)
  }

  /** Row k is the first accepted one of the pair, or k is the number of rows and there is none. */
  ghost predicate IsFirstAccepted(rows: seq<Row>, u: Id, p: Id, k: nat) {
    && k <= |rows| && (k < |rows| ==> Accepts(rows[k], u, p))
    && forall j :: 0 <= j < k ==> !Accepts(rows[j], u, p)
  }

  /** The score read directly off the ordered rows. */
  lemma {:induction false} ScoreIsDirect(rows: seq<Row>, u: Id, p: Id, k: nat)
    requires IsFirstAccepted(rows, u, p, k)
    ensures ScoreOf(rows, u, p).solvedAt == if k < |rows| then Some(rows[k].createdAt) else None
    ensures ScoreOf(rows, u, p).wrong == |MissesBefore(rows, u, p, k)|
    decreases |rows|
  {
    if k == 0 {
      assert MissesBefore(rows, u, p, 0) == {};
    } else {
      var rest := rows[1..];
      forall j | 0 <= j < k - 1 ensures !Accepts(rest[j], u, p) { assert rest[j] == rows[j + 1]; }
      ScoreIsDirect(rest, u, p, k - 1);
      ShiftMisses(rows, u, p, k);
    }
  }

  lemma ShiftMisses(rows: seq<Row>, u: Id, p: Id, k: nat)
    requires 1 <= k <= |rows|
    ensures |MissesBefore(rows, u, p, k)|
         == |MissesBefore(rows[1..], u, p, k - 1)| + if Misses(rows[0], u, p) then 1 else 0
  {
    MissCount(rows, u, p, k);
    MissCount(rows[1..], u, p, k - 1);
    MissSplit(rows, u, p, k);
  }

  ghost function CountMisses(rows: seq<Row>, u: Id, p: Id, k: nat): nat
    requires k <= |rows|
  {
    if k == 0 then 0 else CountMisses(rows, u, p, k - 1) + if Misses(rows[k - 1], u, p) then 1 else 0
  }

  lemma {:induction false} MissCount(rows: seq<Row>, u: Id, p: Id, k: nat)
    requires k <= |rows|
    ensures |MissesBefore(rows, u, p, k)| == CountMisses(rows, u, p, k)
  {
    if k == 0 {
      assert MissesBefore(rows, u, p, 0) == {};
    } else {
      MissCount(rows, u, p, k - 1);
      assert MissesBefore(rows, u, p, k)
          == MissesBefore(rows, u, p, k - 1) + if Misses(rows[k - 1], u, p) then {k - 1} else {};
    }
  }

  lemma {:induction false} MissSplit(rows: seq<Row>, u: Id, p: Id, k: nat)
    requires 1 <= k <= |rows|
    ensures CountMisses(rows, u, p, k) == CountMisses(rows[1..], u, p, k - 1) + if Misses(rows[0], u, p) then 1 else 0
  {
    if k > 1 { MissSplit(rows, u, p, k - 1); }
  }

  // ----- a participant's row -----

  function CellOf(c: Contest, s: Score): Cell {
    match s.solvedAt
    case Some(t) => Cell(true, s.wrong, (t - c.start) / MINUTE + s.wrong * c.penaltyMinutes)
    case None => Cell(false, s.wrong, 0)
  }

  datatype Totals = Totals(points: nat, penalty: int, last: int)

  function Max(x: int, y: int): int {
    if x >= y then x else y
  }

  /** Points, penalty and moment of the last first solution, over the first n problems. */
  function TotalsOf(c: Contest, rows: seq<Row>, u: Id, n: nat): Totals
    requires n <= |c.problems|
  {
    if n == 0 then Totals(0, 0, NOTHING_YET) else
    var t, s := TotalsOf(c, rows, u, n - 1), ScoreOf(rows, u, c.problems[n - 1].problem);
    match s.solvedAt
    case Some(at) => Totals(t.points + c.problems[n - 1].points, t.penalty + CellOf(c, s).penalty, Max(t.last, at))
    case None => t
  }

  function Total(c: Contest, rows: seq<Row>, u: Id): Totals {
    TotalsOf(c, rows, u, |c.problems|)
  }

  /** The sort key of a participant. */
  function Key(t: Totals): seq<int> {
    [0 - t.points, t.penalty, t.last]
  }

  function Keys(c: Contest, rows: seq<Row>, participants: seq<Id>): (keys: seq<seq<int>>)
    ensures |keys| == |participants| && forall i :: 0 <= i < |keys| ==> keys[i] == Key(Total(c, rows, participants[i]))
  {
    seq(|participants|, i requires 0 <= i < |participants| => Key(Total(c, rows, participants[i])))
  }

  function RowOf(c: Contest, rows: seq<Row>, u: Id, rank: nat): StandingsRow {
    var t := Total(c, rows, u);
    StandingsRow(rank, u, t.points, t.penalty,
      seq(|c.problems|, n requires 0 <= n < |c.problems| => CellOf(c, ScoreOf(rows, u, c.problems[n].problem))))
  }

  /** The table: everyone with their own totals, in the stable order of the keys, ranked from 1. */
  ghost predicate IsTable(c: Contest, rows: seq<Row>, participants: seq<Id>, order: seq<nat>,
                          table: seq<StandingsRow>) {
    && IsStableOrder(Keys(c, rows, participants), |participants|, order)
    && |table| == |participants|
    && forall i :: 0 <= i < |table| ==> table[i] == RowOf(c, rows, participants[order[i]], i + 1)
  }

  // ----- the grouped pass -----

  datatype Attempt = Attempt(accepted: bool, counts: bool, createdAt: int)

  function AttemptOf(r: Row): Attempt
    requires Scored(r)
  {
    Attempt(r.verdict.value == ACCEPTED, r.verdict.value != SYSTEM_ERROR && r.verdict.value != COMPILATION_ERROR,
            r.createdAt)
  }

  /** The scored attempts of one pair among the first n rows. */
  ghost function AttemptsOf(rows: seq<Row>, u: Id, p: Id, n: nat): seq<Attempt>
    requires n <= |rows|
  {
    if n == 0 then [] else
    AttemptsOf(rows, u, p, n - 1)
    + if IsFor(rows[n - 1], u, p) && Scored(rows[n - 1]) then [AttemptOf(rows[n - 1])] else []
  }

  function Get(groups: map<(Id, Id), seq<Attempt>>, key: (Id, Id)): seq<Attempt> {
    if key in groups then groups[key] else []
  }

  method Group(rows: seq<Row>) returns (groups: map<(Id, Id), seq<Attempt>>)
    ensures forall u, p :: Get(groups, (u, p)) == AttemptsOf(rows, u, p, |rows|)
  {
    groups := map[];
    for n := 0 to |rows|
      invariant forall u, p :: Get(groups, (u, p)) == AttemptsOf(rows, u, p, n)
    {
      var r := rows[n];
      if Scored(r) {
        var key := (r.user, r.problem);
        groups := groups[key := Get(groups, key) + [AttemptOf(r)]];
      }
    }
  }

  /** Score of a list of attempts: stop at the first accepted one. */
  ghost function ScoreAttempts(attempts: seq<Attempt>): Score {
    if attempts == [] then Score(None, 0)
    else if attempts[0].accepted then Score(Some(attempts[0].createdAt), 0)
    else
      var rest := ScoreAttempts(attempts[1..]);
      if attempts[0].counts then rest.(wrong := rest.wrong + 1) else rest
  }

  lemma {:induction false} GroupSplit(rows: seq<Row>, u: Id, p: Id, n: nat)
    requires 1 <= n <= |rows|
    ensures AttemptsOf(rows, u, p, n)
         == (if IsFor(rows[0], u, p) && Scored(rows[0]) then [AttemptOf(rows[0])] else [])
            + AttemptsOf(rows[1..], u, p, n - 1)
  {
    if n > 1 {
      GroupSplit(rows, u, p, n - 1);
    }
  }

  /** Grouping first loses nothing. */
  lemma {:induction false} GroupedScore(rows: seq<Row>, u: Id, p: Id)
    ensures ScoreAttempts(AttemptsOf(rows, u, p, |rows|)) == ScoreOf(rows, u, p)
  {
    if rows != [] {
      GroupedScore(rows[1..], u, p);
      GroupSplit(rows, u, p, |rows|);
      var attempts := AttemptsOf(rows, u, p, |rows|);
      if IsFor(rows[0], u, p) && Scored(rows[0]) {
        assert attempts[1..] == AttemptsOf(rows[1..], u, p, |rows| - 1);
      } else {
        assert attempts == AttemptsOf(rows[1..], u, p, |rows| - 1);
      }
    }
  }

  method ScorePair(attempts: seq<Attempt>) returns (solvedAt: Option<int>, wrong: nat)
    ensures Score(solvedAt, wrong) == ScoreAttempts(attempts)
  {
    wrong := 0;
    for i := 0 to |attempts|
      invariant ScoreAttempts(attempts)
             == Score(ScoreAttempts(attempts[i..]).solvedAt, wrong + ScoreAttempts(attempts[i..]).wrong)
    {
      assert attempts[i..][0] == attempts[i] && attempts[i..][1..] == attempts[i + 1..];
      if attempts[i].accepted {
        return Some(attempts[i].createdAt), wrong;
      }
      if attempts[i].counts {
        wrong := wrong + 1;
      }
    }
    solvedAt := None;
  }

  method ScoreParticipant(c: Contest, ghost rows: seq<Row>, groups: map<(Id, Id), seq<Attempt>>,
                          u: Id) returns (t: Totals, cells: seq<Cell>)
    requires forall p :: Get(groups, (u, p)) == AttemptsOf(rows, u, p, |rows|)
    ensures t == Total(c, rows, u)
    ensures |cells| == |c.problems|
    ensures forall n :: 0 <= n < |cells| ==> cells[n] == CellOf(c, ScoreOf(rows, u, c.problems[n].problem))
  {
    cells := [];
    var points, penalty, last := 0, 0, NOTHING_YET;
    for n := 0 to |c.problems|
      invariant points >= 0 && Totals(points, penalty, last) == TotalsOf(c, rows, u, n)
      invariant |cells| == n
      invariant forall i :: 0 <= i < n ==> cells[i] == CellOf(c, ScoreOf(rows, u, c.problems[i].problem))
    {
      var cp := c.problems[n];
      var solvedAt, wrong := ScorePair(Get(groups, (u, cp.problem)));
      GroupedScore(rows, u, cp.problem);
      if solvedAt.Some? {
        var minutes := (solvedAt.value - c.start) / MINUTE;
        var cellPenalty := minutes + wrong * c.penaltyMinutes;
        cells := cells + [Cell(true, wrong, cellPenalty)];
        points, penalty, last := points + cp.points, penalty + cellPenalty, Max(last, solvedAt.value);
      } else {
        cells := cells + [Cell(false, wrong, 0)];
      }
    }
    t := Totals(points, penalty, last);
  }

  method ComputeStandings(c: Contest, participants: seq<Id>, rows: seq<Row>) returns (table: seq<StandingsRow>)
    ensures exists order :: IsTable(c, rows, participants, order, table)
  {
    hide AttemptsOf, ScoreOf, TotalsOf, CellOf, Key, Insert, LexLeq, Ahead;
    var groups := Group(rows);
    var keys: seq<seq<int>> := [];
    var computed: seq<StandingsRow> := [];
    for i := 0 to |participants|
      invariant |keys| == |computed| == i
      invariant forall j :: 0 <= j < i ==> keys[j] == Key(Total(c, rows, participants[j]))
      invariant forall j :: 0 <= j < i ==> computed[j] == RowOf(c, rows, participants[j], 0)
    {
      var t, cells := ScoreParticipant(c, rows, groups, participants[i]);
      assert cells == RowOf(c, rows, participants[i], 0).cells;
      keys := keys + [Key(t)];
      computed := computed + [StandingsRow(0, participants[i], t.points, t.penalty, cells)];
    }
    assert keys == Keys(c, rows, participants);
    var sorted := StableOrder(keys);
    table := [];
    for i := 0 to |sorted|
      invariant |table| == i
      invariant forall j :: 0 <= j < i ==> table[j] == RowOf(c, rows, participants[sorted[j]], j + 1)
    {
      table := table + [computed[sorted[i]].(rank := i + 1)];
    }
    assert IsTable(c, rows, participants, sorted, table);
  }

  // ----- what the table promises -----

  lemma ScoreNext(r: Row, rest: seq<Row>, u: Id, p: Id)
    ensures ScoreOf([r] + rest, u, p) ==
      if Accepts(r, u, p) then Score(Some(r.createdAt), 0)
      else if Misses(r, u, p) then Score(ScoreOf(rest, u, p).solvedAt, ScoreOf(rest, u, p).wrong + 1)
      else ScoreOf(rest, u, p)
  {
    assert ([r] + rest)[1..] == rest;
  }

  lemma TotalsNext(c: Contest, rows: seq<Row>, u: Id, n: nat)
    requires n < |c.problems|
    ensures TotalsOf(c, rows, u, 0) == Totals(0, 0, NOTHING_YET)
    ensures var (t, s) := (TotalsOf(c, rows, u, n), ScoreOf(rows, u, c.problems[n].problem));
      TotalsOf(c, rows, u, n + 1) == match s.solvedAt
        case Some(at) => Totals(t.points + c.problems[n].points, t.penalty + CellOf(c, s).penalty, Max(t.last, at))
        case None => t
  {
  }

  /** A contest of two hours with one problem, and three submissions: user 5 is wrong at minute 5 and right at minute
      10, user 6 right at minute 15. */
  const TWO_HOURS := Contest(0, 7_200_000_000, 20, [ContestProblem(1, 100)])
  const WRONG_5 := Row(5, 1, COMPLETED, Some(WRONG_ANSWER), 300_000_000)
  const RIGHT_5 := Row(5, 1, COMPLETED, Some(ACCEPTED), 600_000_000)
  const RIGHT_6 := Row(6, 1, COMPLETED, Some(ACCEPTED), 900_000_000)

  /** Ten minutes and a miss at twenty are half an hour, which loses to a quarter of an hour. */
  lemma MissesCost()
    ensures var rows := [WRONG_5] + ([RIGHT_5] + ([RIGHT_6] + []));
      && Total(TWO_HOURS, rows, 5) == Totals(100, 30, 600_000_000)
      && Total(TWO_HOURS, rows, 6) == Totals(100, 15, 900_000_000)
  {
    var rows := [WRONG_5] + ([RIGHT_5] + ([RIGHT_6] + []));
    forall u: Id | u == 5 || u == 6
      ensures ScoreOf(rows, u, 1) == if u == 5 then Score(Some(600_000_000), 1) else Score(Some(900_000_000), 0)
    {
      ScoreNext(WRONG_5, [RIGHT_5] + ([RIGHT_6] + []), u, 1);
      ScoreNext(RIGHT_5, [RIGHT_6] + [], u, 1);
      ScoreNext(RIGHT_6, [], u, 1);
    }
    hide ScoreOf, TotalsOf;
    TotalsNext(TWO_HOURS, rows, 5, 0);
    TotalsNext(TWO_HOURS, rows, 6, 0);
  }

  /** The cell of a solved problem, read off the rows: the whole minutes from the start of the contest to the first
      accepted submission, and the contest's penalty for every miss before it. */
  lemma SolvedCellIsDirect(c: Contest, rows: seq<Row>, participants: seq<Id>, order: seq<nat>,
                           table: seq<StandingsRow>, i: nat, n: nat, k: nat, minutes: nat)
    requires IsTable(c, rows, participants, order, table) && i < |table| && n < |c.problems|
    requires IsFirstAccepted(rows, table[i].user, c.problems[n].problem, k) && k < |rows|
    requires c.start + minutes * 60_000_000 <= rows[k].createdAt < c.start + (minutes + 1) * 60_000_000
    ensures n < |table[i].cells|
    ensures var misses := |MissesBefore(rows, table[i].user, c.problems[n].problem, k)|;
      table[i].cells[n] == Cell(true, misses, minutes + misses * c.penaltyMinutes)
  {
    ScoreIsDirect(rows, table[i].user, c.problems[n].problem, k);
  }

  /** The cell of a problem not solved: all the misses, and no penalty. */
  lemma UnsolvedCellIsDirect(c: Contest, rows: seq<Row>, participants: seq<Id>, order: seq<nat>,
                             table: seq<StandingsRow>, i: nat, n: nat)
    requires IsTable(c, rows, participants, order, table) && i < |table| && n < |c.problems|
    requires forall k :: 0 <= k < |rows| ==> !Accepts(rows[k], table[i].user, c.problems[n].problem)
    ensures n < |table[i].cells|
    ensures var misses := |MissesBefore(rows, table[i].user, c.problems[n].problem, |rows|)|;
      table[i].cells[n] == Cell(false, misses, 0)
  {
    ScoreIsDirect(rows, table[i].user, c.problems[n].problem, |rows|);
  }

  /** The problems a participant has solved, by their number in the contest. */
  ghost function SolvedBy(c: Contest, rows: seq<Row>, u: Id, n: nat): set<nat>
    requires n <= |c.problems|
  {
    set m: nat | m < n && exists k :: 0 <= k < |rows| && Accepts(rows[k], u, c.problems[m].problem)
  }

  ghost function Points(c: Contest): (points: seq<int>)
    ensures |points| == |c.problems| && forall n :: 0 <= n < |points| ==> points[n] == c.problems[n].points
  {
    seq(|c.problems|, n requires 0 <= n < |c.problems| => c.problems[n].points)
  }

  ghost function Penalties(cells: seq<Cell>): (penalties: seq<int>)
    ensures |penalties| == |cells| && forall n :: 0 <= n < |penalties| ==> penalties[n] == cells[n].penalty
  {
    seq(|cells|, n requires 0 <= n < |cells| => cells[n].penalty)
  }

  /** Some row is accepted exactly if the score has a solution. */
  lemma {:induction false} SolvedIff(rows: seq<Row>, u: Id, p: Id)
    ensures ScoreOf(rows, u, p).solvedAt.Some? <==> exists k :: 0 <= k < |rows| && Accepts(rows[k], u, p)
  {
    if rows != [] && !Accepts(rows[0], u, p) {
      SolvedIff(rows[1..], u, p);
      if k :| 0 <= k < |rows| && Accepts(rows[k], u, p) { assert rows[1..][k - 1] == rows[k]; }
      if k :| 0 <= k < |rows[1..]| && Accepts(rows[1..][k], u, p) { assert rows[k + 1] == rows[1..][k]; }
    }
  }

  lemma SolvedNext(c: Contest, rows: seq<Row>, u: Id, m: nat)
    requires m < |c.problems|
    ensures var was := SolvedBy(c, rows, u, m);
      && m !in was
      && SolvedBy(c, rows, u, m + 1) ==
           if ScoreOf(rows, u, c.problems[m].problem).solvedAt.Some? then was + {m} else was
  {
    SolvedIff(rows, u, c.problems[m].problem);
  }

  lemma SumNext(s: set<nat>, weight: seq<int>, x: nat)
    requires x !in s && x < |weight| && forall i :: i in s ==> i < |weight|
    ensures SetFacts.Sum(s + {x}, weight) == SetFacts.Sum(s, weight) + weight[x]
  {
    SetFacts.SumSplit(s + {x}, weight, x);
    assert s + {x} - {x} == s;
  }

  /** A weight of every solved problem adds up from one problem to the next. */
  lemma WeightNext(c: Contest, rows: seq<Row>, u: Id, weight: seq<int>, m: nat)
    requires m < |c.problems| == |weight|
    ensures SetFacts.Sum(SolvedBy(c, rows, u, m + 1), weight) == SetFacts.Sum(SolvedBy(c, rows, u, m), weight)
              + if ScoreOf(rows, u, c.problems[m].problem).solvedAt.Some? then weight[m] else 0
  {
    SolvedNext(c, rows, u, m);
    if ScoreOf(rows, u, c.problems[m].problem).solvedAt.Some? {
      SumNext(SolvedBy(c, rows, u, m), weight, m);
    }
  }

  lemma {:induction false} PointsAreSum(c: Contest, rows: seq<Row>, u: Id, n: nat)
    requires n <= |c.problems|
    ensures TotalsOf(c, rows, u, n).points == SetFacts.Sum(SolvedBy(c, rows, u, n), Points(c))
  {
    if n == 0 {
      assert SolvedBy(c, rows, u, 0) == {};
    } else {
      var m: nat := n - 1;
      PointsAreSum(c, rows, u, m);
      WeightNext(c, rows, u, Points(c), m);
      TotalsNext(c, rows, u, m);
      hide *;
    }
  }

  lemma {:induction false} PenaltyIsSum(c: Contest, rows: seq<Row>, u: Id, cells: seq<Cell>, n: nat)
    requires n <= |c.problems| == |cells|
    requires forall m :: 0 <= m < |cells| ==> cells[m] == CellOf(c, ScoreOf(rows, u, c.problems[m].problem))
    ensures TotalsOf(c, rows, u, n).penalty == SetFacts.Sum(SolvedBy(c, rows, u, n), Penalties(cells))
  {
    if n == 0 {
      assert SolvedBy(c, rows, u, 0) == {};
    } else {
      var m: nat := n - 1;
      var p := ScoreOf(rows, u, c.problems[m].problem);
      PenaltyIsSum(c, rows, u, cells, m);
      WeightNext(c, rows, u, Penalties(cells), m);
      TotalsNext(c, rows, u, m);
      assert Penalties(cells)[m] == CellOf(c, p).penalty;
      hide *;
    }
  }

  /** A participant's points are those of the problems they solved, and their penalty is the sum of those cells'. */
  lemma RowIsSums(c: Contest, rows: seq<Row>, participants: seq<Id>, order: seq<nat>, table: seq<StandingsRow>, i: nat)
    requires IsTable(c, rows, participants, order, table) && i < |table|
    ensures |table[i].cells| == |c.problems|
    ensures var solved := SolvedBy(c, rows, table[i].user, |c.problems|);
      && table[i].points == SetFacts.Sum(solved, Points(c))
      && table[i].penalty == SetFacts.Sum(solved, Penalties(table[i].cells))
  {
    PointsAreSum(c, rows, table[i].user, |c.problems|);
    PenaltyIsSum(c, rows, table[i].user, table[i].cells, |c.problems|);
  }

  /** The problem was first solved at that moment. */
  ghost predicate FirstSolvedAt(rows: seq<Row>, u: Id, p: Id, at: int) {
    exists k :: 0 <= k < |rows| && IsFirstAccepted(rows, u, p, k) && rows[k].createdAt == at
  }

  lemma FirstSolvedIff(rows: seq<Row>, u: Id, p: Id, at: int)
    ensures FirstSolvedAt(rows, u, p, at) <==> ScoreOf(rows, u, p).solvedAt == Some(at)
  {
    var k := FirstAccepted(rows, u, p);
    ScoreIsDirect(rows, u, p, k);
    if FirstSolvedAt(rows, u, p, at) {
      var j: nat :| j < |rows| && IsFirstAccepted(rows, u, p, j) && rows[j].createdAt == at;
      ScoreIsDirect(rows, u, p, j);
    }
  }

  /** The tie-break is the greatest moment at which a problem was first solved, or the lowest timestamp. */
  lemma {:induction false} LastIsGreatest(c: Contest, rows: seq<Row>, u: Id, n: nat)
    requires n <= |c.problems|
    ensures var last := TotalsOf(c, rows, u, n).last;
      && last >= NOTHING_YET
      && (forall m, at :: 0 <= m < n && FirstSolvedAt(rows, u, c.problems[m].problem, at) ==> at <= last)
      && (last == NOTHING_YET || exists m :: 0 <= m < n && FirstSolvedAt(rows, u, c.problems[m].problem, last))
  {
    if n > 0 {
      var m: nat := n - 1;
      LastIsGreatest(c, rows, u, m);
      forall at ensures FirstSolvedAt(rows, u, c.problems[m].problem, at)
                   <==> ScoreOf(rows, u, c.problems[m].problem).solvedAt == Some(at)
      {
        FirstSolvedIff(rows, u, c.problems[m].problem, at);
      }
      hide ScoreOf, FirstSolvedAt;
    }
  }

  lemma {:induction false} FirstAccepted(rows: seq<Row>, u: Id, p: Id) returns (k: nat)
    ensures IsFirstAccepted(rows, u, p, k)
    decreases |rows|
  {
    if rows == [] || Accepts(rows[0], u, p) {
      k := 0;
    } else {
      var j := FirstAccepted(rows[1..], u, p);
      k := j + 1;
      forall i | 0 <= i < k ensures !Accepts(rows[i], u, p) { assert i > 0 ==> rows[i] == rows[1..][i - 1]; }
    }
  }

  /** Ranks are 1, 2, ... by points from high to low, then penalty, then the moment of the last solution. */
  lemma RankOrder(c: Contest, rows: seq<Row>, participants: seq<Id>, order: seq<nat>, table: seq<StandingsRow>,
                  i: nat, j: nat)
    requires IsTable(c, rows, participants, order, table) && i < j < |table|
    ensures table[i].rank == i + 1
    ensures var a, b := Total(c, rows, table[i].user), Total(c, rows, table[j].user);
            || a.points > b.points
            || (a.points == b.points && (a.penalty < b.penalty || (a.penalty == b.penalty && a.last <= b.last)))
  {
    assert Ahead(Keys(c, rows, participants), order[i], order[j]);
    var a, b := Total(c, rows, participants[order[i]]), Total(c, rows, participants[order[j]]);
    LexLeqTriple(0 - a.points, a.penalty, a.last, 0 - b.points, b.penalty, b.last);
  }

  /** The same keys make the same table. */
  lemma SameTable(c: Contest, rows: seq<Row>, rows': seq<Row>, participants: seq<Id>, order: seq<nat>,
                  table: seq<StandingsRow>)
    requires forall u, p :: ScoreOf(rows, u, p) == ScoreOf(rows', u, p)
    requires IsTable(c, rows, participants, order, table)
    ensures IsTable(c, rows', participants, order, table)
  {
    forall u ensures Total(c, rows, u) == Total(c, rows', u) {
      SameTotals(c, rows, rows', u, |c.problems|);
    }
    assert Keys(c, rows, participants) == Keys(c, rows', participants);
    forall u: Id, rank: nat ensures RowOf(c, rows, u, rank) == RowOf(c, rows', u, rank) { }
  }

  lemma {:induction false} SameTotals(c: Contest, rows: seq<Row>, rows': seq<Row>, u: Id, n: nat)
    requires n <= |c.problems| && forall p :: ScoreOf(rows, u, p) == ScoreOf(rows', u, p)
    ensures TotalsOf(c, rows, u, n) == TotalsOf(c, rows', u, n)
  {
    if n > 0 { SameTotals(c, rows, rows', u, n - 1); }
  }

  /** A row that is no attempt, for whatever it was sent in: not judged to the end, or with a verdict that says nothing
      about the solution. */
  predicate NoAttempt(r: Row) {
    || r.status == QUEUED || r.status == RUNNING || r.status == FAILED
    || r.verdict in {None, Some(SYSTEM_ERROR), Some(COMPILATION_ERROR)}
  }

  /** Rows of this kind never matter, and every other kind can. */
  lemma NoAttemptIff(r: Row)
    ensures NoAttempt(r) <==> forall rows: seq<Row>, u, p :: ScoreOf([r] + rows, u, p) == ScoreOf(rows, u, p)
  {
    forall rows: seq<Row>, u, p | NoAttempt(r) ensures ScoreOf([r] + rows, u, p) == ScoreOf(rows, u, p) {
      ScoreNext(r, rows, u, p);
    }
    if !NoAttempt(r) {
      ScoreNext(r, [], r.user, r.problem);
      assert ScoreOf([r] + [], r.user, r.problem) != ScoreOf([], r.user, r.problem);
    }
  }

  /** A row that cannot matter: no attempt, or after the pair's first accepted row. */
  ghost predicate Inert(rows: seq<Row>, i: nat)
    requires i < |rows|
  {
    NoAttempt(rows[i]) || exists j :: 0 <= j < i && Accepts(rows[j], rows[i].user, rows[i].problem)
  }

  lemma {:induction false} InertScore(rows: seq<Row>, i: nat, u: Id, p: Id)
    requires i < |rows| && Inert(rows, i)
    ensures ScoreOf(rows[..i] + rows[i + 1..], u, p) == ScoreOf(rows, u, p)
    decreases |rows|
  {
    var fewer := rows[..i] + rows[i + 1..];
    if i == 0 {
      assert fewer == rows[1..];
    } else if !Accepts(rows[0], u, p) {
      assert fewer[1..] == rows[1..][..i - 1] + rows[1..][i..];
      if IsFor(rows[i], u, p) {
        if !NoAttempt(rows[i]) {
          var j :| 0 <= j < i && Accepts(rows[j], rows[i].user, rows[i].problem);
          assert rows[1..][j - 1] == rows[j];
        }
        assert rows[1..][i - 1] == rows[i];
        InertScore(rows[1..], i - 1, u, p);
      } else {
        ForeignScore(rows[1..], i - 1, u, p);
      }
    }
  }

  lemma {:induction false} ForeignScore(rows: seq<Row>, i: nat, u: Id, p: Id)
    requires i < |rows| && !IsFor(rows[i], u, p)
    ensures ScoreOf(rows[..i] + rows[i + 1..], u, p) == ScoreOf(rows, u, p)
    decreases |rows|
  {
    var fewer := rows[..i] + rows[i + 1..];
    if i == 0 {
      assert fewer == rows[1..];
    } else {
      assert fewer[1..] == rows[1..][..i - 1] + rows[1..][i..];
      ForeignScore(rows[1..], i - 1, u, p);
    }
  }

  /** Deleting a row that is pending, FAILED, a compilation error or later than the pair's solution changes nothing. */
  lemma InertRowsDoNotCount(c: Contest, rows: seq<Row>, participants: seq<Id>, i: nat, order: seq<nat>,
                            table: seq<StandingsRow>)
    requires i < |rows| && Inert(rows, i) && IsTable(c, rows, participants, order, table)
    ensures IsTable(c, rows[..i] + rows[i + 1..], participants, order, table)
  {
    var fewer := rows[..i] + rows[i + 1..];
    forall u, p ensures ScoreOf(rows, u, p) == ScoreOf(fewer, u, p) {
      InertScore(rows, i, u, p);
    }
    SameTable(c, rows, fewer, participants, order, table);
  }

  // ----- a verdict arrives -----

  function Judged(rows: seq<Row>, i: nat, verdict: Verdict): seq<Row>
    requires i < |rows|
  {
    rows[i := rows[i].(status := COMPLETED, verdict := Some(verdict))]
  }

  lemma {:induction false} OthersScore(rows: seq<Row>, i: nat, verdict: Verdict, u: Id, p: Id)
    requires i < |rows| && !IsFor(rows[i], u, p)
    ensures ScoreOf(Judged(rows, i, verdict), u, p) == ScoreOf(rows, u, p)
    decreases |rows|
  {
    if i > 0 {
      assert Judged(rows, i, verdict)[1..] == Judged(rows[1..], i - 1, verdict);
      OthersScore(rows[1..], i - 1, verdict, u, p);
    } else {
      assert Judged(rows, i, verdict)[1..] == rows[1..];
    }
  }

  /** Whoever had solved the problem still has. */
  lemma {:induction false} StillSolved(rows: seq<Row>, i: nat, verdict: Verdict, u: Id, p: Id)
    requires i < |rows| && !Scored(rows[i])
    ensures ScoreOf(rows, u, p).solvedAt.Some? ==> ScoreOf(Judged(rows, i, verdict), u, p).solvedAt.Some?
    decreases |rows|
  {
    if i > 0 {
      assert Judged(rows, i, verdict)[1..] == Judged(rows[1..], i - 1, verdict);
      StillSolved(rows[1..], i - 1, verdict, u, p);
    } else {
      assert Judged(rows, i, verdict)[1..] == rows[1..];
    }
  }

  lemma {:induction false} PointsGrow(c: Contest, rows: seq<Row>, rows': seq<Row>, u: Id, n: nat)
    requires n <= |c.problems|
    requires forall p :: ScoreOf(rows, u, p).solvedAt.Some? ==> ScoreOf(rows', u, p).solvedAt.Some?
    ensures TotalsOf(c, rows, u, n).points <= TotalsOf(c, rows', u, n).points
  {
    if n > 0 { PointsGrow(c, rows, rows', u, n - 1); }
  }

  /** When a pending submission is judged, only its owner's totals can change, and never to fewer points. */
  lemma VerdictIsLocal(c: Contest, rows: seq<Row>, i: nat, verdict: Verdict, u: Id)
    requires i < |rows| && !Scored(rows[i])
    ensures u != rows[i].user ==> Total(c, Judged(rows, i, verdict), u) == Total(c, rows, u)
    ensures Total(c, Judged(rows, i, verdict), u).points >= Total(c, rows, u).points
  {
    var rows' := Judged(rows, i, verdict);
    if u != rows[i].user {
      forall p ensures ScoreOf(rows, u, p) == ScoreOf(rows', u, p) { OthersScore(rows, i, verdict, u, p); }
      SameTotals(c, rows, rows', u, |c.problems|);
    }
    forall p ensures ScoreOf(rows, u, p).solvedAt.Some? ==> ScoreOf(rows', u, p).solvedAt.Some? {
      StillSolved(rows, i, verdict, u, p);
    }
    PointsGrow(c, rows, rows', u, |c.problems|);
  }

  /** ... and no two other participants change places: at positions a and b before, a' and b' after. */
  lemma VerdictKeepsOthersInOrder(c: Contest, rows: seq<Row>, i: nat, verdict: Verdict, participants: seq<Id>,
                                  order: seq<nat>, order': seq<nat>, a: nat, b: nat, a': nat, b': nat)
    requires i < |rows| && !Scored(rows[i])
    requires IsStableOrder(Keys(c, rows, participants), |participants|, order)
    requires IsStableOrder(Keys(c, Judged(rows, i, verdict), participants), |participants|, order')
    requires a < |order| && b < |order| && a' < |order'| && b' < |order'| && a != b
    requires order[a] == order'[a'] && order[b] == order'[b']
    requires participants[order[a]] != rows[i].user && participants[order[b]] != rows[i].user
    ensures a < b <==> a' < b'
  {
    var keys, keys' := Keys(c, rows, participants), Keys(c, Judged(rows, i, verdict), participants);
    VerdictIsLocal(c, rows, i, verdict, participants[order[a]]);
    VerdictIsLocal(c, rows, i, verdict, participants[order[b]]);
    StableOrderInjective(keys, order, a, b);
    StableOrderIsByAhead(keys, order, a, b);
    assert a' != b';
    StableOrderIsByAhead(keys', order', a', b');
  }

  // ----- solvers and non-solvers -----

  ghost predicate SolvedNothing(c: Contest, rows: seq<Row>, u: Id) {
    forall n :: 0 <= n < |c.problems| ==> ScoreOf(rows, u, c.problems[n].problem).solvedAt.None?
  }

  predicate Before(a: Totals, b: Totals) {
    LexLeq(Key(a), Key(b)) && Key(a) != Key(b)
  }

  lemma {:induction false} NothingSolvedTotals(c: Contest, rows: seq<Row>, u: Id, n: nat)
    requires n <= |c.problems| && SolvedNothing(c, rows, u)
    ensures TotalsOf(c, rows, u, n) == Totals(0, 0, NOTHING_YET)
  {
    if n > 0 { NothingSolvedTotals(c, rows, u, n - 1); }
  }

  lemma {:induction false} SolverHasPoints(c: Contest, rows: seq<Row>, u: Id, n: nat, m: nat)
    requires m < n <= |c.problems| && ScoreOf(rows, u, c.problems[m].problem).solvedAt.Some?
    ensures TotalsOf(c, rows, u, n).points >= c.problems[m].points
  {
    if m < n - 1 { SolverHasPoints(c, rows, u, n - 1, m); }
  }

  /** Someone who solved something is ahead of everyone who solved nothing: true of a contest exactly when every problem
      in it is worth points. */
  ghost predicate SolversFirst(c: Contest) {
    forall rows, u, v :: ValidRows(c, rows) && !SolvedNothing(c, rows, u) && SolvedNothing(c, rows, v) ==>
      Before(Total(c, rows, u), Total(c, rows, v))
  }

  lemma SolversFirstIffPoints(c: Contest)
    requires ValidContest(c)
    ensures SolversFirst(c) <==> forall n :: 0 <= n < |c.problems| ==> c.problems[n].points > 0
  {
    if forall n :: 0 <= n < |c.problems| ==> c.problems[n].points > 0 {
      forall rows, u, v | ValidRows(c, rows) && !SolvedNothing(c, rows, u) && SolvedNothing(c, rows, v)
        ensures Before(Total(c, rows, u), Total(c, rows, v))
      {
        var m :| 0 <= m < |c.problems| && ScoreOf(rows, u, c.problems[m].problem).solvedAt.Some?;
        SolverHasPoints(c, rows, u, |c.problems|, m);
        NothingSolvedTotals(c, rows, v, |c.problems|);
      }
    } else {
      var n :| 0 <= n < |c.problems| && c.problems[n].points == 0;
      WorthlessSolution(c, n);
    }
  }

  /** Solving a problem worth nothing in the first second does not put anyone ahead of someone who did nothing. */
  lemma WorthlessSolution(c: Contest, n: nat)
    requires ValidContest(c) && n < |c.problems| && c.problems[n].points == 0
    ensures !SolversFirst(c)
  {
    hide ScoreOf, SolversFirst, SolvedNothing, ValidRows, Before, TotalsOf;
    var rows := [Row(0, c.problems[n].problem, COMPLETED, Some(ACCEPTED), c.start)];
    OneSolver(c, n, rows);
    NothingSolvedTotals(c, rows, 1, |c.problems|);
    OneSolution(c, n, rows, |c.problems|);
    NotBefore(Total(c, rows, 0), Total(c, rows, 1));
    NotFirst(c, rows, 0, 1);
  }

  lemma NotBefore(a: Totals, b: Totals)
    requires a.points == b.points == 0 && a.penalty == b.penalty == 0 && a.last >= b.last
    ensures !Before(a, b)
  {
    LexLeqTriple(0, 0, a.last, 0, 0, b.last);
  }

  lemma NotFirst(c: Contest, rows: seq<Row>, u: Id, v: Id)
    requires ValidRows(c, rows) && !SolvedNothing(c, rows, u) && SolvedNothing(c, rows, v)
    requires !Before(Total(c, rows, u), Total(c, rows, v))
    ensures !SolversFirst(c)
  {
  }

  lemma OneSolver(c: Contest, n: nat, rows: seq<Row>)
    requires ValidContest(c) && n < |c.problems|
    requires rows == [Row(0, c.problems[n].problem, COMPLETED, Some(ACCEPTED), c.start)]
    ensures ValidRows(c, rows) && !SolvedNothing(c, rows, 0) && SolvedNothing(c, rows, 1)
  {
    OneRow(rows[0], 0, c.problems[n].problem);
    forall m | 0 <= m < |c.problems| ensures ScoreOf(rows, 1, c.problems[m].problem).solvedAt.None? {
      OneRow(rows[0], 1, c.problems[m].problem);
    }
  }

  lemma OneRow(r: Row, u: Id, p: Id)
    ensures ScoreOf([r], u, p)
         == if Accepts(r, u, p) then Score(Some(r.createdAt), 0) else Score(None, if Misses(r, u, p) then 1 else 0)
  {
    assert [r][1..] == [];
  }

  lemma {:induction false} OneSolution(c: Contest, n: nat, rows: seq<Row>, k: nat)
    requires ValidContest(c) && n < |c.problems| && c.problems[n].points == 0 && k <= |c.problems|
    requires rows == [Row(0, c.problems[n].problem, COMPLETED, Some(ACCEPTED), c.start)]
    ensures TotalsOf(c, rows, 0, k) == if n < k then Totals(0, 0, c.start) else Totals(0, 0, NOTHING_YET)
  {
    if k > 0 {
      OneSolution(c, n, rows, k - 1);
      OneRow(rows[0], 0, c.problems[k - 1].problem);
      assert k - 1 < n ==> c.problems[k - 1].problem != c.problems[n].problem;
      assert n < k - 1 ==> c.problems[n].problem != c.problems[k - 1].problem;
    }
  }
}
