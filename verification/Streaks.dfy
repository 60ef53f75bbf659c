/** `record_streak`: the row of a user's streak, and the days it stands for. A day is its number. */
module Streaks {
  import opened Wrappers
  import opened Upserts

  datatype Streak = Streak(current: int, longest: int, lastActive: int)

  function Insert(today: int): Streak {
    Streak(1, 1, today)
  }

  function Update(today: int, s: Streak): Streak {
    var current :=
      if s.lastActive == today then s.current
      else if s.lastActive == today - 1 then s.current + 1
      else 1;
    Streak(current, if current > s.longest then current else s.longest, today)
  }

  const OPS := Ops(Insert, Update)

  // ----- the table -----

  class StreakTable {
    var rows: map<nat, Streak>

    constructor ()
      ensures rows == map[]
    {
      rows := map[];
    }

    /** The UPDATE, which computes the new values in SQL; how many rows it matched. */
    method UpdateRow(user: nat, today: int) returns (rowcount: nat)
      modifies this
      ensures rowcount == if user in old(rows) then 1 else 0
      ensures rows == if user in old(rows) then old(rows)[user := Update(today, old(rows)[user])] else old(rows)
    {
      if user !in rows { return 0; }
      var s := rows[user];
      var current := 1;
      if s.lastActive == today {
        current := s.current;
      } else if s.lastActive == today - 1 {
        current := s.current + 1;
      }
      var longest := s.longest;
      if current > longest {
        longest := current;
      }
      rows := rows[user := Streak(current, longest, today)];
      return 1;
    }

    /** The INSERT; refused if there is a row. */
    method InsertRow(user: nat, today: int) returns (ok: bool)
      modifies this
      ensures ok <==> user !in old(rows)
      ensures rows == if ok then old(rows)[user := Insert(today)] else old(rows)
    {
      ok := user !in rows;
      if ok { rows := rows[user := Streak(1, 1, today)]; }
    }

    /** The call, while other workers record their days between its UPDATE and its INSERT. */
    method RecordStreak(user: nat, today: int, rivals: seq<int>)
      modifies this
      ensures user in old(rows) ==> rows == old(rows)[user := Update(today, old(rows)[user])]
      ensures user !in old(rows) ==> InTurn(OPS, rivals + [today], None).Some?
      ensures user !in old(rows) ==> rows == old(rows)[user := InTurn(OPS, rivals + [today], None).value]
      decreases |rivals|
    {
      var rowcount := UpdateRow(user, today);
      if rowcount > 0 { return; }
      for k := 0 to |rivals|
        invariant rows == if k == 0 then old(rows) else old(rows)[user := Row(rivals[..k])]
      {
        RecordStreak(user, rivals[k], []);
        assert rivals[..k + 1][..k] == rivals[..k];
      }
      var ok := InsertRow(user, today);
      if !ok {
        rowcount := UpdateRow(user, today);
      }
      assert (rivals + [today])[..|rivals|] == rivals && rivals[..|rivals|] == rivals;
    }
  }

  /** The row of a user after some calls, made in turn. */
  function Row(calls: seq<int>): Streak
    requires calls != []
  {
    InTurn(OPS, calls, None).value
  }

  // ----- what the row means -----

  /** All of the c days up to d are active. */
  ghost predicate Active(days: set<int>, d: int, c: nat) {
    forall k :: d - c < k <= d ==> k in days
  }

  /** The run of consecutive active days that ends on day d has length c. */
  ghost predicate IsRun(days: set<int>, d: int, c: nat) {
    c > 0 && Active(days, d, c) && d - c !in days
  }

  ghost predicate IsLongestRun(days: set<int>, c: nat) {
    (exists d :: Active(days, d, c)) && forall d, k: nat :: k > c ==> !Active(days, d, k)
  }

  ghost predicate StandsFor(days: set<int>, s: Streak) {
    && s.current > 0 && s.longest > 0
    && s.lastActive in days && (forall d :: d in days ==> d <= s.lastActive)
    && IsRun(days, s.lastActive, s.current)
    && IsLongestRun(days, s.longest)
  }

  ghost function Days(calls: seq<int>): set<int> {
    set k | 0 <= k < |calls| :: calls[k]
  }

  predicate NonDecreasing(calls: seq<int>) {
    forall j, k :: 0 <= j < k < |calls| ==> calls[j] <= calls[k]
  }

  lemma FirstDay(today: int)
    ensures StandsFor({today}, Insert(today))
  {
    var days := {today};
    assert Active(days, today, 1);
    forall d, k: nat | k > 1 ensures !Active(days, d, k) {
      assert !(d in days && d - 1 in days);
    }
  }

  lemma NextRun(days: set<int>, s: Streak, today: int)
    requires StandsFor(days, s) && s.lastActive <= today
    ensures IsRun(days + {today}, today, Update(today, s).current)
  {
  }

  lemma NextLongest(days: set<int>, s: Streak, today: int)
    requires StandsFor(days, s) && s.lastActive <= today
    ensures IsLongestRun(days + {today}, Update(today, s).longest)
  {
    var (more, t) := (days + {today}, Update(today, s));
    NextRun(days, s, today);
    var d0 :| Active(days, d0, s.longest);
    assert Active(more, d0, s.longest) && Active(more, today, t.current);
    forall d, k: nat | k > t.longest ensures !Active(more, d, k) {
      assert today - t.current !in more;
      assert d > today ==> d !in more;
      if d < today { Narrower(days, today, d, k); }
    }
  }

  lemma Narrower(days: set<int>, today: int, d: int, k: nat)
    requires d < today
    ensures Active(days + {today}, d, k) ==> Active(days, d, k)
  {
    if Active(days + {today}, d, k) {
      forall j | d - k < j <= d ensures j in days { assert j in days + {today}; }
    }
  }

  /** One more active day: the row stands for the days exactly if it is not before the last one. */
  lemma NextDay(days: set<int>, s: Streak, today: int)
    requires StandsFor(days, s)
    ensures StandsFor(days + {today}, Update(today, s)) <==> s.lastActive <= today
  {
    if s.lastActive <= today {
      NextRun(days, s, today);
      NextLongest(days, s, today);
    } else {
      assert s.lastActive in days + {today};
    }
  }

  lemma DaysNext(calls: seq<int>, today: int)
    ensures Days(calls + [today]) == Days(calls) + {today}
  {
    var more := calls + [today];
    forall d ensures d in Days(more) <==> d in Days(calls) || d == today {
      if d in Days(calls) { var k :| 0 <= k < |calls| && calls[k] == d; assert more[k] == d; }
      if d in Days(more) && d != today { var k :| 0 <= k < |more| && more[k] == d; assert calls[k] == d; }
      assert more[|calls|] == today;
    }
  }

  /** For days in order the row holds the length of the run that ends on the last active day, and of the longest run
      ever. */
  lemma {:induction false} StreakIsRun(calls: seq<int>)
    requires calls != [] && NonDecreasing(calls)
    ensures InTurn(OPS, calls, None).Some? && StandsFor(Days(calls), Row(calls))
    ensures Row(calls).lastActive == calls[|calls| - 1]
    decreases |calls|
  {
    var (front, today) := (calls[..|calls| - 1], calls[|calls| - 1]);
    assert calls == front + [today];
    DaysNext(front, today);
    if front == [] {
      FirstDay(today);
      assert Days(front) == {} && Days(calls) == {today};
      assert InTurn(OPS, front, None) == None;
      assert InTurn(OPS, calls, None) == Some(Insert(today));
    } else {
      StreakIsRun(front);
      NextDay(Days(front), Row(front), today);
    }
  }

  /** A second accepted submission on the same day changes nothing. */
  lemma SameDayIsNoOp(calls: seq<int>, today: int)
    requires calls != [] && NonDecreasing(calls + [today]) && calls[|calls| - 1] == today
    ensures InTurn(OPS, calls + [today], None) == InTurn(OPS, calls, None)
  {
    assert NonDecreasing(calls) by {
      assert forall k :: 0 <= k < |calls| ==> (calls + [today])[k] == calls[k];
    }
    StreakIsRun(calls);
    assert (calls + [today])[..|calls|] == calls;
  }

  lemma SameDays(days: seq<int>, order: seq<nat>)
    requires IsOrder(order, |days|)
    ensures Days(Picked(days, order)) == Days(days)
  {
    forall d ensures d in Days(Picked(days, order)) <==> d in Days(days) {
      if d in Days(days) {
        var w :| 0 <= w < |days| && days[w] == d;
        OrderHasAll(order, |days|, w);
        var k :| 0 <= k < |order| && order[k] == w;
        assert Picked(days, order)[k] == d;
      }
    }
  }

  /** Workers interleaved in every way: if their days come in order, the row stands for all of them. */
  lemma ConcurrentDays(days: seq<int>, schedule: seq<nat>)
    requires days != [] && forall k :: 0 <= k < |schedule| ==> schedule[k] < |days|
    ensures var s := Run(OPS, days, Started(days, None), schedule);
      AllDone(s) ==>
        && IsOrder(s.log, |days|)
        && (NonDecreasing(Picked(days, s.log)) ==> s.row.Some? && StandsFor(Days(days), s.row.value))
  {
    NoCallIsLost(OPS, days, None, schedule);
    var s := Run(OPS, days, Started(days, None), schedule);
    if AllDone(s) && NonDecreasing(Picked(days, s.log)) {
      StreakIsRun(Picked(days, s.log));
      SameDays(days, s.log);
    }
  }

  /** The row stands for the days written so far, if any. */
  ghost predicate StandsAt(days: seq<int>, s: State<Streak>) {
    && (forall k :: 0 <= k < |s.log| ==> s.log[k] < |days|)
    && (s.log != [] ==> s.row.Some? && StandsFor(Days(Picked(days, s.log)), s.row.value))
  }

  ghost predicate ValidSchedule(days: seq<int>, schedule: seq<nat>) {
    forall k :: 0 <= k < |schedule| ==> schedule[k] < |days|
  }

  /** The state after the first k statements of a schedule. */
  ghost function After(days: seq<int>, schedule: seq<nat>, k: nat): State<Streak>
    requires ValidSchedule(days, schedule) && k <= |schedule|
  {
    Run(OPS, days, Started(days, None), schedule[..k])
  }

  /** The row stands for the days written so far at every moment of a schedule. */
  ghost predicate StandsThroughout(days: seq<int>, schedule: seq<nat>)
    requires ValidSchedule(days, schedule)
  {
    forall k :: 0 <= k <= |schedule| ==> StandsAt(days, After(days, schedule, k))
  }

  lemma ThroughoutNext(days: seq<int>, schedule: seq<nat>)
    requires ValidSchedule(days, schedule) && schedule != []
    ensures var front := schedule[..|schedule| - 1];
      StandsThroughout(days, schedule) <==>
        StandsThroughout(days, front) && StandsAt(days, After(days, schedule, |schedule|))
  {
    var front := schedule[..|schedule| - 1];
    forall k: nat | k < |schedule| ensures After(days, schedule, k) == After(days, front, k) {
      assert schedule[..k] == front[..k];
    }
    hide StandsAt, After;
    if StandsThroughout(days, schedule) {
      forall k: nat | k <= |front| ensures StandsAt(days, After(days, front, k)) {
        assert StandsAt(days, After(days, schedule, k));
      }
    }
    if StandsThroughout(days, front) && StandsAt(days, After(days, schedule, |schedule|)) {
      forall k: nat | k <= |schedule| ensures StandsAt(days, After(days, schedule, k)) {
        if k < |schedule| { assert StandsAt(days, After(days, front, k)); }
      }
    }
  }

  lemma InOrderNext(calls: seq<int>, today: int)
    ensures NonDecreasing(calls + [today]) <==> NonDecreasing(calls) && (calls == [] || calls[|calls| - 1] <= today)
  {
    var more := calls + [today];
    if NonDecreasing(more) {
      assert forall k :: 0 <= k < |calls| ==> calls[k] == more[k];
      assert calls != [] ==> more[|calls| - 1] <= more[|calls|];
    }
  }

  /** What one more day makes of calls in order. */
  lemma OneMoreCall(calls: seq<int>, today: int)
    requires NonDecreasing(calls)
    ensures var next := Upserted(OPS, today, InTurn(OPS, calls, None));
      StandsFor(Days(calls + [today]), next) <==> NonDecreasing(calls + [today])
  {
    InOrderNext(calls, today);
    DaysNext(calls, today);
    hide NonDecreasing, StandsFor, Days;
    if calls == [] {
      FirstDay(today);
      NoDays();
      assert {} + {today} == {today};
    } else {
      StreakIsRun(calls);
      NextDay(Days(calls), Row(calls), today);
    }
  }

  lemma NoDays()
    ensures Days([]) == {} && InTurn(OPS, [], None) == None
  {
  }

  /** The row stands for the days so far after every single call. */
  ghost predicate StandsAlways(calls: seq<int>) {
    forall k :: 0 < k <= |calls| ==> StandsFor(Days(calls[..k]), Row(calls[..k]))
  }

  lemma AlwaysNext(calls: seq<int>, today: int)
    ensures StandsAlways(calls + [today]) <==>
      StandsAlways(calls) && StandsFor(Days(calls + [today]), Row(calls + [today]))
  {
    var more := calls + [today];
    assert more[..|more|] == more;
    assert forall k :: 0 <= k <= |calls| ==> more[..k] == calls[..k];
    hide StandsFor, Days, Row;
  }

  lemma RowNext(calls: seq<int>, today: int)
    ensures Row(calls + [today]) == Upserted(OPS, today, InTurn(OPS, calls, None))
  {
    assert (calls + [today])[..|calls|] == calls;
  }

  /** Calls in turn: the row stands for the days after every call exactly if they come in order. */
  lemma {:induction false} StandsAlwaysIff(calls: seq<int>)
    ensures StandsAlways(calls) <==> NonDecreasing(calls)
    decreases |calls|
  {
    if calls != [] {
      var (front, today) := (calls[..|calls| - 1], calls[|calls| - 1]);
      StandsAlwaysIff(front);
      InOrderNext(front, today);
      AlwaysNext(front, today);
      RowNext(front, today);
      if NonDecreasing(front) { OneMoreCall(front, today); }
      hide *;
      assert calls == front + [today];
    }
  }

  lemma PickedNext(days: seq<int>, log: seq<nat>, w: nat)
    requires w < |days| && forall k :: 0 <= k < |log| ==> log[k] < |days|
    ensures Picked(days, log + [w]) == Picked(days, log) + [days[w]]
    ensures InTurn(OPS, Picked(days, log + [w]), None)
         == Some(Upserted(OPS, days[w], InTurn(OPS, Picked(days, log), None)))
  {
    var calls := Picked(days, log);
    assert Picked(days, log + [w]) == calls + [days[w]];
    assert (calls + [days[w]])[..|calls|] == calls;
  }

  /** One more write: the row goes on standing for the days exactly if they are still in order. */
  lemma WriteStands(days: seq<int>, was: State<Streak>, now: State<Streak>, w: nat)
    requires w < |days| && Serial(OPS, days, None, was) && Serial(OPS, days, None, now)
    requires now.log == was.log + [w] && NonDecreasing(Picked(days, was.log))
    ensures StandsAt(days, now) <==> NonDecreasing(Picked(days, now.log))
  {
    PickedNext(days, was.log, w);
    OneMoreCall(Picked(days, was.log), days[w]);
    hide StandsFor, Days, NonDecreasing, Picked, InTurn, Finished, Upserted;
  }

  /** However workers interleave, the row stands for the days written so far at every moment exactly if the days are
      written in order. */
  lemma {:induction false} StandsIffInOrder(days: seq<int>, schedule: seq<nat>)
    requires ValidSchedule(days, schedule)
    ensures var s := After(days, schedule, |schedule|);
      && Serial(OPS, days, None, s)
      && (StandsThroughout(days, schedule) <==> NonDecreasing(Picked(days, s.log)))
    decreases |schedule|
  {
    var s := After(days, schedule, |schedule|);
    assert schedule[..|schedule|] == schedule;
    EveryRunIsSerial(OPS, days, None, schedule);
    if schedule == [] {
      assert s == Started(days, None);
    } else {
      var (front, w) := (schedule[..|schedule| - 1], schedule[|schedule| - 1]);
      var was := After(days, front, |front|);
      assert front[..|front|] == front && s == Step(OPS, days, was, w);
      StandsIffInOrder(days, front);
      ThroughoutNext(days, schedule);
      ThroughoutEnds(days, front);
      LogNext(days, was, w);
      if s.log != was.log && NonDecreasing(Picked(days, was.log)) {
        WriteStands(days, was, s, w);
      }
      NotSooner(days, was.log, s.log);
      hide StandsAt, StandsThroughout, NonDecreasing, After, Serial, Picked;
    }
  }

  lemma ThroughoutEnds(days: seq<int>, schedule: seq<nat>)
    requires ValidSchedule(days, schedule)
    ensures StandsThroughout(days, schedule) ==> StandsAt(days, After(days, schedule, |schedule|))
  {
  }

  lemma LogNext(days: seq<int>, s: State<Streak>, w: nat)
    requires w < |days| && Serial(OPS, days, None, s)
    ensures var t := Step(OPS, days, s, w); t.log == s.log + [w] || (t.log == s.log && t.row == s.row)
    ensures var t := Step(OPS, days, s, w); t.log == s.log && StandsAt(days, s) ==> StandsAt(days, t)
  {
  }

  /** Days out of order stay out of order. */
  lemma NotSooner(days: seq<int>, log: seq<nat>, more: seq<nat>)
    requires log <= more && forall k :: 0 <= k < |more| ==> more[k] < |days|
    ensures NonDecreasing(Picked(days, more)) ==> NonDecreasing(Picked(days, log))
  {
    var (a, b) := (Picked(days, log), Picked(days, more));
    assert forall k :: 0 <= k < |a| ==> a[k] == b[k];
  }

  /** The worker of day 1 writes after the worker of day 2. */
  lemma LateWorker()
    ensures var s := Run(OPS, [1, 2], Started([1, 2], None), [1, 1, 0]);
      AllDone(s) && s.log == [1, 0] && s.row == Some(Streak(1, 1, 1))
  {
    var days := [1, 2];
    var s0 := Started(days, None);
    var s1 := Step(OPS, days, s0, 1);
    var s2 := Step(OPS, days, s1, 1);
    assert [1, 1, 0][..2] == [1, 1] && [1, 1][..1] == [1] && [1][..0] == [];
    assert Run(OPS, days, s0, [1]) == s1;
    assert Run(OPS, days, s0, [1, 1]) == s2;
    assert s2 == State(Some(Insert(2)), [Updating, Done], [1]);
    assert Run(OPS, days, s0, [1, 1, 0]) == Step(OPS, days, s2, 0);
  }

  lemma InOrder()
    ensures StandsFor(Days([1, 2]), Row([1, 2])) && Row([1, 2]) == Streak(2, 2, 2)
  {
    StreakIsRun([1, 2]);
    assert [1, 2][..1] == [1] && [1][..0] == [];
    assert InTurn(OPS, [1], None) == Some(Insert(1));
    assert InTurn(OPS, [1, 2], None) == Some(Update(2, Insert(1)));
  }

  /** Two workers around midnight: both have written, and the row has forgotten that there is a run of two days. In
      order they would have left it. */
  lemma OrderOfDaysMatters()
    ensures var s := Run(OPS, [1, 2], Started([1, 2], None), [1, 1, 0]);
      && AllDone(s) && s.log == [1, 0] && s.row == Some(Streak(1, 1, 1))
      && !StandsFor(Days([1, 2]), Streak(1, 1, 1))
    ensures StandsFor(Days([1, 2]), Row([1, 2])) && Row([1, 2]) == Streak(2, 2, 2)
  {
    LateWorker();
    InOrder();
    hide Run, Row;
    assert [1, 2][1] in Days([1, 2]);
  }
}
