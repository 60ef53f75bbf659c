/** The tables the judging pipeline writes, and the transactions that write them.

    Every transaction is a function on the tables; the class is the database that the asynchronous steps share, each of
    its methods one committed transaction. */
module SubmissionStore {
  import opened Wrappers
  import opened Verdicts
  import Streaks

  type Id = nat

  datatype Status = QUEUED | RUNNING | COMPLETED | FAILED

  datatype Submission = Submission(user: Id, problem: Id, createdAt: int, status: Status, verdict: Option<Verdict>)

  /** The denormalised counters of a problem. */
  datatype Counters = Counters(total: nat, accepted: nat)

  datatype Progress = Progress(solved: bool, attempts: nat, firstSolvedAt: Option<int>, lastAttemptAt: int)

  datatype Tables = Tables(rows: map<Id, Submission>, counters: map<Id, Counters>, progress: map<(Id, Id), Progress>,
                           streaks: map<Id, Streaks.Streak>)

  predicate Open(s: Submission) {
    s.status == QUEUED || s.status == RUNNING
  }

  /** `create_and_enqueue`: the durable row, before anything is enqueued. */
  function Inserted(t: Tables, id: Id, user: Id, problem: Id, now: int): Tables {
    t.(rows := t.rows[id := Submission(user, problem, now, QUEUED, None)])
  }

  /** `_claim`: the guarded update matches one row or none. */
  predicate Claimable(t: Tables, id: Id) {
    id in t.rows && t.rows[id].status == QUEUED
  }

  function Claimed(t: Tables, id: Id): Tables {
    if Claimable(t, id) then t.(rows := t.rows[id := t.rows[id].(status := RUNNING)]) else t
  }

  /** `_fail`, and the queue-failure path of `create_and_enqueue`: whatever the status was. */
  function Failed(t: Tables, id: Id): Tables {
    if id in t.rows then t.(rows := t.rows[id := t.rows[id].(status := FAILED, verdict := Some(SYSTEM_ERROR))]) else t
  }

  /** The reaper's guarded update over the ids it selected earlier. */
  function Swept(t: Tables, ids: set<Id>): Tables {
    t.(rows := map id | id in t.rows ::
      if id in ids && Open(t.rows[id]) then t.rows[id].(status := FAILED, verdict := Some(SYSTEM_ERROR))
      else t.rows[id])
  }

  /** The ids the reaper selects. */
  function Stale(t: Tables, horizon: int): set<Id> {
    set id | id in t.rows && Open(t.rows[id]) && t.rows[id].createdAt < horizon
  }

  /** `record_progress`, as one upsert. */
  function Progressed(progress: map<(Id, Id), Progress>, key: (Id, Id), accepted: bool, now: int)
    : map<(Id, Id), Progress>
  {
    if key in progress then
      var p := progress[key];
      progress[key := Progress(
        p.solved || accepted,
        p.attempts + 1,
        if accepted && p.firstSolvedAt.None? then Some(now) else p.firstSolvedAt,
        now)]
    else
      progress[key := Progress(accepted, 1, if accepted then Some(now) else None, now)]
  }

  /** The number of the UTC day of a moment in seconds. */
  function DayOf(now: int): int {
    now / 86_400
  }

  /** Two moments fall on the same day exactly if midnight does not come between them. */
  lemma SameDayIff(a: int, b: int)
    requires a <= b
    ensures DayOf(a) == DayOf(b) <==> !exists midnight :: a < midnight <= b && midnight % 86_400 == 0
    ensures DayOf(a) <= DayOf(b) && DayOf(a + 86_400) == DayOf(a) + 1
  {
    if DayOf(a) < DayOf(b) {
      var midnight := DayOf(b) * 86_400;
      assert a < midnight <= b && midnight % 86_400 == 0;
    }
    if midnight :| a < midnight <= b && midnight % 86_400 == 0 {
      assert midnight == (midnight / 86_400) * 86_400;
      assert DayOf(a) < midnight / 86_400 <= DayOf(b);
    }
  }

  /** `record_streak`, as one upsert. */
  function Marked(streaks: map<Id, Streaks.Streak>, user: Id, today: int): map<Id, Streaks.Streak> {
    streaks[user := if user in streaks then Streaks.Update(today, streaks[user]) else Streaks.Insert(today)]
  }

  /** `_persist`: the row, the problem's counters, the user's progress and streak, in one transaction. */
  function Persisted(t: Tables, id: Id, verdict: Verdict, now: int): Tables
    requires id in t.rows && t.rows[id].problem in t.counters
  {
    var s := t.rows[id];
    var c := t.counters[s.problem];
    Tables(
      t.rows[id := s.(status := COMPLETED, verdict := Some(verdict))],
      t.counters[s.problem := Counters(c.total + 1, c.accepted + if verdict == ACCEPTED then 1 else 0)],
      Progressed(t.progress, (s.user, s.problem), verdict == ACCEPTED, now),
      if verdict == ACCEPTED then Marked(t.streaks, s.user, DayOf(now)) else t.streaks)
  }

  class Database {
    var rows: map<Id, Submission>
    var counters: map<Id, Counters>
    var progress: map<(Id, Id), Progress>
    var streaks: map<Id, Streaks.Streak>

    function Contents(): Tables
      reads this
    {
      Tables(rows, counters, progress, streaks)
    }

    constructor (problems: set<Id>)
      ensures Contents() == Tables(map[], map p | p in problems :: Counters(0, 0), map[], map[])
    {
      rows, progress, streaks := map[], map[], map[];
      counters := map p | p in problems :: Counters(0, 0);
    }

    method Insert(id: Id, user: Id, problem: Id, now: int)
      requires id !in rows && problem in counters
      modifies this
      ensures Contents() == Inserted(old(Contents()), id, user, problem, now)
    {
      rows := rows[id := Submission(user, problem, now, QUEUED, None)];
    }

    /** `UPDATE ... WHERE id = .. AND status = 'QUEUED'`; true when a row matched. */
    method Claim(id: Id) returns (claimed: bool)
      modifies this
      ensures claimed <==> old(Claimable(Contents(), id))
      ensures Contents() == Claimed(old(Contents()), id)
    {
      claimed := id in rows && rows[id].status == QUEUED;
      if claimed {
        rows := rows[id := rows[id].(status := RUNNING)];
      }
    }

    method Fail(id: Id)
      modifies this
      ensures Contents() == Failed(old(Contents()), id)
    {
      if id in rows {
        rows := rows[id := rows[id].(status := FAILED, verdict := Some(SYSTEM_ERROR))];
      }
    }

    /** Sweeping the selection at once would leave nothing stale and touch nothing else. */
    method SelectStale(horizon: int) returns (ids: set<Id>)
      ensures ids == Stale(Contents(), horizon)
      ensures forall id :: id in ids <==>
        id in rows && rows[id].status in {QUEUED, RUNNING} && rows[id].createdAt < horizon
      ensures Stale(Swept(Contents(), ids), horizon) == {}
      ensures forall id :: id in rows ==> (id in ids <==> Swept(Contents(), ids).rows[id] != rows[id])
    {
      ids := set id | id in rows && Open(rows[id]) && rows[id].createdAt < horizon;
    }

    method Sweep(ids: set<Id>)
      modifies this
      ensures Contents() == Swept(old(Contents()), ids)
    {
      rows := map id | id in rows ::
        if id in ids && Open(rows[id]) then rows[id].(status := FAILED, verdict := Some(SYSTEM_ERROR)) else rows[id];
    }

    method Persist(id: Id, verdict: Verdict, now: int)
      requires id in rows && rows[id].problem in counters
      modifies this
      ensures Contents() == Persisted(old(Contents()), id, verdict, now)
    {
      var s := rows[id];
      rows := rows[id := s.(status := COMPLETED, verdict := Some(verdict))];
      var c := counters[s.problem];
      counters := counters[s.problem := Counters(c.total + 1, c.accepted + if verdict == ACCEPTED then 1 else 0)];
      RecordProgress((s.user, s.problem), verdict == ACCEPTED, now);
      if verdict == ACCEPTED {
        RecordStreak(s.user, DayOf(now));
      }
    }

    method RecordStreak(user: Id, today: int)
      modifies `streaks
      ensures streaks == Marked(old(streaks), user, today)
    {
      if user in streaks {
        streaks := streaks[user := Streaks.Update(today, streaks[user])];
      } else {
        streaks := streaks[user := Streaks.Insert(today)];
      }
    }

    method RecordProgress(key: (Id, Id), accepted: bool, now: int)
      modifies `progress
      ensures progress == Progressed(old(progress), key, accepted, now)
    {
      if key in progress {
        var p := progress[key];
        p := p.(attempts := p.attempts + 1, lastAttemptAt := now);
        if accepted {
          p := p.(solved := true);
          if p.firstSolvedAt.None? {
            p := p.(firstSolvedAt := Some(now));
          }
        }
        progress := progress[key := p];
      } else {
        progress := progress[key := Progress(accepted, 1, if accepted then Some(now) else None, now)];
      }
    }
  }
}
