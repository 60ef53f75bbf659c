/** `record_progress` as an upsert of the judge's workers: what any number of them leave in one user's progress row. */
module ProgressUpserts {
  import opened Wrappers
  import opened SubmissionStore
  import opened Upserts

  datatype Attempt = Attempt(accepted: bool, at: int)

  function Insert(a: Attempt): Progress {
    Progress(a.accepted, 1, if a.accepted then Some(a.at) else None, a.at)
  }

  function Update(a: Attempt, p: Progress): Progress {
    Progress(p.solved || a.accepted, p.attempts + 1,
             if a.accepted then Coalesce(p.firstSolvedAt, a.at) else p.firstSolvedAt, a.at)
  }

  function Coalesce(t: Option<int>, now: int): Option<int> {
    if t.Some? then t else Some(now)
  }

  const OPS := Ops(Insert, Update)

  function RowOf(progress: map<(Id, Id), Progress>, key: (Id, Id)): Option<Progress> {
    if key in progress then Some(progress[key]) else None
  }

  /** Without interference it is the one-step upsert of the persist transaction. */
  lemma AloneIsProgressed(progress: map<(Id, Id), Progress>, key: (Id, Id), a: Attempt)
    ensures Progressed(progress, key, a.accepted, a.at) == progress[key := Upserted(OPS, a, RowOf(progress, key))]
  {
  }

  /** The row after attempts made in turn: the number of attempts, whether one was accepted, and when the first accepted
      one was made. */
  ghost predicate Records(attempts: seq<Attempt>, start: Option<Progress>, p: Progress) {
    var (before, solved, at) :=
      if start.Some? then (start.value.attempts, start.value.solved, start.value.firstSolvedAt) else (0, false, None);
    && p.attempts == before + |attempts|
    && (attempts != [] ==> p.lastAttemptAt == attempts[|attempts| - 1].at)
    && (p.solved <==> solved || exists k :: 0 <= k < |attempts| && attempts[k].accepted)
    && (at.Some? ==> p.firstSolvedAt == at)
    && (at.None? ==> FirstAccepted(attempts, p.firstSolvedAt))
  }

  /** Attempt k is the first accepted one. */
  ghost predicate IsFirst(attempts: seq<Attempt>, k: nat, at: int)
    requires k < |attempts|
  {
    attempts[k] == Attempt(true, at) && forall j :: 0 <= j < k ==> !attempts[j].accepted
  }

  ghost predicate FirstAccepted(attempts: seq<Attempt>, at: Option<int>) {
    if at.None? then forall k :: 0 <= k < |attempts| ==> !attempts[k].accepted
    else exists k :: 0 <= k < |attempts| && IsFirst(attempts, k, at.value)
  }

  lemma FirstAcceptedNext(attempts: seq<Attempt>, at: Option<int>, a: Attempt)
    requires FirstAccepted(attempts, at)
    ensures FirstAccepted(attempts + [a], if a.accepted then Coalesce(at, a.at) else at)
  {
    var more := attempts + [a];
    assert forall k :: 0 <= k < |attempts| ==> more[k] == attempts[k];
    if at.Some? {
      var k :| 0 <= k < |attempts| && IsFirst(attempts, k, at.value);
      assert IsFirst(more, k, at.value);
    } else if a.accepted {
      assert IsFirst(more, |attempts|, a.at);
    }
  }

  lemma {:induction false} InTurnRecords(attempts: seq<Attempt>, start: Option<Progress>)
    requires attempts != []
    ensures InTurn(OPS, attempts, start).Some? && Records(attempts, start, InTurn(OPS, attempts, start).value)
    decreases |attempts|
  {
    var (front, a) := (attempts[..|attempts| - 1], attempts[|attempts| - 1]);
    assert attempts == front + [a];
    if front == [] {
      if start.None? { FirstAcceptedNext([], None, a); }
      if start.Some? && start.value.firstSolvedAt.None? { FirstAcceptedNext([], None, a); }
      assert attempts[0] == a;
    } else {
      InTurnRecords(front, start);
      var p := InTurn(OPS, front, start).value;
      if start.None? || start.value.firstSolvedAt.None? { FirstAcceptedNext(front, p.firstSolvedAt, a); }
      assert attempts[|front|] == a;
      if p.solved && (exists k :: 0 <= k < |front| && front[k].accepted) {
        var k :| 0 <= k < |front| && front[k].accepted;
        assert attempts[k].accepted;
      }
    }
  }

  /** Any number of workers, interleaved in every way: no attempt is lost, the row is solved exactly if it was or one of
      them was accepted, and the time of the first solution is that of an accepted attempt nobody preceded. */
  lemma ConcurrentAttempts(attempts: seq<Attempt>, start: Option<Progress>, schedule: seq<nat>)
    requires attempts != [] && forall k :: 0 <= k < |schedule| ==> schedule[k] < |attempts|
    ensures var s := Run(OPS, attempts, Started(attempts, start), schedule);
      AllDone(s) ==> IsOrder(s.log, |attempts|) && s.row.Some? && Records(Picked(attempts, s.log), start, s.row.value)
  {
    NoCallIsLost(OPS, attempts, start, schedule);
    var s := Run(OPS, attempts, Started(attempts, start), schedule);
    if AllDone(s) { InTurnRecords(Picked(attempts, s.log), start); }
  }

  /** No statement of any worker takes an attempt back, downgrades a solved problem, or overwrites the time it was first
      solved. */
  lemma NothingIsTakenBack(attempts: seq<Attempt>, s: State<Progress>, w: nat)
    requires w < |attempts| == |s.phases| && s.row.Some?
    ensures var (p, t) := (s.row.value, Step(OPS, attempts, s, w));
      && t.row.Some? && t.row.value.attempts >= p.attempts
      && (p.solved ==> t.row.value.solved)
      && (p.firstSolvedAt.Some? ==> t.row.value.firstSolvedAt == p.firstSolvedAt)
  {
  }
}
