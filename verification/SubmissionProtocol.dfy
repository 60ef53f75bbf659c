/** The life of submissions under concurrent workers, redelivered messages, the reaper and a failing queue.

    A run is any interleaving of committed transactions. A worker that claimed a submission is a job; it may persist a
    verdict, may fail before or after that commit, or may die without a trace. */
module SubmissionProtocol {
  import opened Wrappers
  import opened Verdicts
  import opened SubmissionStore
  import Streaks
  import Upserts

  datatype Stage = Judging | Committed | Ended

  datatype Job = Job(submission: Id, stage: Stage)

  /** One committed `_persist`. */
  datatype Record = Record(submission: Id, user: Id, problem: Id, verdict: Verdict, at: int)

  /** The database, the workers, the requests still at `queue.enqueue`, the sweeps between their two statements, and
      the commits of `_persist` in the order they happened. */
  datatype System = System(
    tables: Tables,
    jobs: map<Id, Job>,
    enqueueing: set<Id>,
    sweeps: map<Id, set<Id>>,
    log: seq<Record>)

  datatype Event =
    | Create(id: Id, user: Id, problem: Id, now: int)
    | EnqueueDone(id: Id)
    | EnqueueFailed(id: Id)
    | Deliver(job: Id, id: Id)
    | Persist(job: Id, verdict: Verdict, now: int)
    | Fail(job: Id)
    | End(job: Id)
    | SweepSelect(sweep: Id, horizon: int)
    | SweepUpdate(sweep: Id)

  function Start(problems: set<Id>): System {
    System(Tables(map[], map p | p in problems :: Counters(0, 0), map[], map[]), map[], {}, map[], [])
  }

  /** What may happen next. A message for a row may be delivered at any time and any number of times. */
  predicate Possible(s: System, e: Event) {
    match e
    case Create(id, user, problem, now) => id !in s.tables.rows && problem in s.tables.counters
    case EnqueueDone(id) => id in s.enqueueing
    case EnqueueFailed(id) => id in s.enqueueing
    case Deliver(job, id) => job !in s.jobs && id in s.tables.rows
    case Persist(job, verdict, now) => job in s.jobs && s.jobs[job].stage == Judging && verdict != SYSTEM_ERROR
                                       && s.jobs[job].submission in s.tables.rows
                                       && s.tables.rows[s.jobs[job].submission].problem in s.tables.counters
    case Fail(job) => job in s.jobs && s.jobs[job].stage != Ended
    case End(job) => job in s.jobs && s.jobs[job].stage != Ended
    case SweepSelect(sweep, horizon) => true
    case SweepUpdate(sweep) => sweep in s.sweeps
  }

  function Step(s: System, e: Event): System
    requires Possible(s, e)
  {
    match e
    case Create(id, user, problem, now) =>
      s.(tables := Inserted(s.tables, id, user, problem, now), enqueueing := s.enqueueing + {id})
    case EnqueueDone(id) =>
      s.(enqueueing := s.enqueueing - {id})
    case EnqueueFailed(id) =>
      s.(tables := Failed(s.tables, id), enqueueing := s.enqueueing - {id})
    case Deliver(job, id) =>
      if Claimable(s.tables, id) then s.(tables := Claimed(s.tables, id), jobs := s.jobs[job := Job(id, Judging)])
      else s
    case Persist(job, verdict, now) =>
      var id := s.jobs[job].submission;
      var row := s.tables.rows[id];
      s.(tables := Persisted(s.tables, id, verdict, now),
         jobs := s.jobs[job := Job(id, Committed)],
         log := s.log + [Record(id, row.user, row.problem, verdict, now)])
    case Fail(job) =>
      s.(tables := Failed(s.tables, s.jobs[job].submission), jobs := s.jobs[job := s.jobs[job].(stage := Ended)])
    case End(job) =>
      s.(jobs := s.jobs[job := s.jobs[job].(stage := Ended)])
    case SweepSelect(sweep, horizon) =>
      s.(sweeps := s.sweeps[sweep := Stale(s.tables, horizon)])
    case SweepUpdate(sweep) =>
      s.(tables := Swept(s.tables, s.sweeps[sweep]), sweeps := s.sweeps - {sweep})
  }

  /** The run is possible from `s` and leads to `t`. */
  ghost predicate Leads(s: System, events: seq<Event>, t: System)
    decreases |events|
  {
    if events == [] then s == t
    else Possible(s, events[0]) && Leads(Step(s, events[0]), events[1..], t)
  }

  ghost predicate Reachable(problems: set<Id>, s: System) {
    exists events :: Leads(Start(problems), events, s)
  }

  // ----- what the commits add up to -----

  /** Commits on problem p. */
  function Total(log: seq<Record>, p: Id): nat {
    if log == [] then 0 else
    var r := log[|log| - 1];
    Total(log[..|log| - 1], p) + if r.problem == p then 1 else 0
  }

  /** Commits of ACCEPTED on problem p. */
  function Accepted(log: seq<Record>, p: Id): nat {
    if log == [] then 0 else
    var r := log[|log| - 1];
    Accepted(log[..|log| - 1], p) + if r.problem == p && r.verdict == ACCEPTED then 1 else 0
  }

  /** Commits of user u on problem p. */
  function Attempts(log: seq<Record>, u: Id, p: Id): nat {
    if log == [] then 0 else
    var r := log[|log| - 1];
    Attempts(log[..|log| - 1], u, p) + if r.user == u && r.problem == p then 1 else 0
  }

  /** The moment of the user's first ACCEPTED commit on the problem. */
  ghost predicate FirstSolved(log: seq<Record>, u: Id, p: Id, at: Option<int>) {
    match at
    case None => forall k :: 0 <= k < |log| && log[k].user == u && log[k].problem == p ==> log[k].verdict != ACCEPTED
    case Some(t) =>
      exists k :: 0 <= k < |log| && log[k] == Record(log[k].submission, u, p, ACCEPTED, t)
        && forall j :: 0 <= j < k && log[j].user == u && log[j].problem == p ==> log[j].verdict != ACCEPTED
  }

  /** The submission was counted as an attempt. */
  ghost predicate Counted(s: System, id: Id) {
    exists k :: 0 <= k < |s.log| && s.log[k].submission == id
  }

  // ----- the invariant -----

  /** A claimed submission has exactly one job; it is out of the queue for good. */
  ghost predicate JobsFit(s: System) {
    && (forall j :: j in s.jobs ==>
          s.jobs[j].submission in s.tables.rows && s.tables.rows[s.jobs[j].submission].status != QUEUED)
    && (forall i, j :: i in s.jobs && j in s.jobs && i != j ==> s.jobs[i].submission != s.jobs[j].submission)
    && (forall id :: id in s.tables.rows && s.tables.rows[id].status == RUNNING ==> HasJob(s, id))
  }

  /** A submission is persisted at most once, by a job that has left the judging stage. */
  ghost predicate LogFits(s: System) {
    && (forall k :: 0 <= k < |s.log| ==> RecordFits(s, s.log[k]))
    && (forall i, k :: 0 <= i < k < |s.log| ==> s.log[i].submission != s.log[k].submission)
    && (forall id :: id in s.tables.rows && s.tables.rows[id].status == COMPLETED ==> Counted(s, id))
  }

  ghost predicate RecordFits(s: System, r: Record) {
    && r.verdict != SYSTEM_ERROR
    && r.submission in s.tables.rows
    && s.tables.rows[r.submission].user == r.user && s.tables.rows[r.submission].problem == r.problem
    && !Open(s.tables.rows[r.submission])
    && (s.tables.rows[r.submission].status == COMPLETED ==> s.tables.rows[r.submission].verdict == Some(r.verdict))
    && exists j :: j in s.jobs && s.jobs[j].submission == r.submission && s.jobs[j].stage != Judging
  }

  /** A verdict is there iff judging is over; it is SYSTEM_ERROR iff the judging failed. */
  ghost predicate VerdictsFit(t: Tables) {
    forall id :: id in t.rows ==>
      && (t.rows[id].verdict.Some? <==> !Open(t.rows[id]))
      && (t.rows[id].verdict == Some(SYSTEM_ERROR) <==> t.rows[id].status == FAILED)
  }

  ghost predicate CountersFit(t: Tables, log: seq<Record>) {
    && (forall id :: id in t.rows ==> t.rows[id].problem in t.counters)
    && (forall p :: p in t.counters ==>
          t.counters[p].total == Total(log, p) && t.counters[p].accepted == Accepted(log, p))
  }

  ghost predicate ProgressFits(t: Tables, log: seq<Record>) {
    forall u, p :: ProgressFitsFor(t, log, u, p)
  }

  ghost predicate ProgressFitsFor(t: Tables, log: seq<Record>, u: Id, p: Id) {
    if (u, p) in t.progress then
      var g := t.progress[(u, p)];
      && g.attempts == Attempts(log, u, p) > 0
      && FirstSolved(log, u, p, g.firstSolvedAt)
      && (g.solved <==> g.firstSolvedAt.Some?)
    else Attempts(log, u, p) == 0
  }

  ghost predicate Inv(s: System) {
    JobsFit(s) && LogFits(s) && VerdictsFit(s.tables) && CountersFit(s.tables, s.log) && ProgressFits(s.tables, s.log)
  }

  function Rank(status: Status): nat {
    match status
    case QUEUED => 0
    case RUNNING => 1
    case COMPLETED => 2
    case FAILED => 2
  }

  /** A row never disappears, never changes hands and never goes back: queued, running, over. */
  lemma RowsMove(s: System, e: Event, id: Id)
    requires Possible(s, e) && id in s.tables.rows
    ensures id in Step(s, e).tables.rows
    ensures var was, now := s.tables.rows[id], Step(s, e).tables.rows[id];
            && now.user == was.user && now.problem == was.problem && now.createdAt == was.createdAt
            && Rank(now.status) >= Rank(was.status)
            && (now.status == COMPLETED && was.status != COMPLETED ==> e.Persist?)
            && (e.Persist? && s.jobs[e.job].submission != id ==> now == was)
            && (now.status == COMPLETED && !e.Persist? ==> now == was)
            && (now.status == RUNNING && was.status != RUNNING ==> e.Deliver? && e.id == id && Claimable(s.tables, id))
  {
  }

  /** The step gives the submission up: its message was not enqueued, its job failed, or it was swept while still
      open. */
  predicate GivesUp(s: System, e: Event, id: Id)
    requires Possible(s, e) && id in s.tables.rows
  {
    || (e.EnqueueFailed? && e.id == id)
    || (e.Fail? && s.jobs[e.job].submission == id)
    || (e.SweepUpdate? && id in s.sweeps[e.sweep] && s.tables.rows[id].status in {QUEUED, RUNNING})
  }

  /** A row changes for one of three reasons, and for no other: it is given up, judged, or taken out of the queue. */
  lemma RowMovesOnly(s: System, e: Event, id: Id)
    requires Possible(s, e) && id in s.tables.rows
    ensures id in Step(s, e).tables.rows
    ensures var was, now := s.tables.rows[id], Step(s, e).tables.rows[id];
            && (GivesUp(s, e, id) ==> now.status == FAILED && now.verdict == Some(SYSTEM_ERROR))
            && (now != was ==>
                  || GivesUp(s, e, id)
                  || (e.Persist? && s.jobs[e.job].submission == id
                      && now.status == COMPLETED && now.verdict == Some(e.verdict))
                  || (e.Deliver? && e.id == id && was.status == QUEUED
                      && now.status == RUNNING && now.verdict == was.verdict))
  {
  }

  lemma JobsMove(s: System, e: Event, j: Id)
    requires Possible(s, e) && j in s.jobs
    ensures j in Step(s, e).jobs && Step(s, e).jobs[j].submission == s.jobs[j].submission
    ensures s.jobs[j].stage != Judging ==> Step(s, e).jobs[j].stage != Judging
  {
  }

  /** A new job is one whose claim just succeeded. */
  lemma JobsNew(s: System, e: Event, j: Id)
    requires Possible(s, e) && j in Step(s, e).jobs && j !in s.jobs
    ensures e.Deliver? && e.job == j && Claimable(s.tables, e.id) && Step(s, e).jobs[j].submission == e.id
    ensures Step(s, e).tables.rows[e.id].status == RUNNING
  {
  }

  lemma JobsKeep(s: System, e: Event)
    requires Inv(s) && Possible(s, e)
    ensures JobsFit(Step(s, e))
  {
    hide Step, Possible, LogFits, VerdictsFit, CountersFit, ProgressFits;
    var t := Step(s, e);
    forall j | j in t.jobs
      ensures t.jobs[j].submission in t.tables.rows && t.tables.rows[t.jobs[j].submission].status != QUEUED
    {
      if j in s.jobs {
        JobsMove(s, e, j);
        RowsMove(s, e, s.jobs[j].submission);
      } else {
        JobsNew(s, e, j);
        RowsMove(s, e, e.id);
      }
    }
    forall i, j | i in t.jobs && j in t.jobs && i != j ensures t.jobs[i].submission != t.jobs[j].submission {
      if i in s.jobs { JobsMove(s, e, i); } else { JobsNew(s, e, i); }
      if j in s.jobs { JobsMove(s, e, j); } else { JobsNew(s, e, j); }
    }
    forall id | id in t.tables.rows && t.tables.rows[id].status == RUNNING ensures HasJob(t, id) {
      RunningHasJob(s, e, id);
    }
  }

  ghost predicate HasJob(s: System, id: Id) {
    exists j :: j in s.jobs && s.jobs[j].submission == id
  }

  lemma RunningHasJob(s: System, e: Event, id: Id)
    requires JobsFit(s) && Possible(s, e)
    requires id in Step(s, e).tables.rows && Step(s, e).tables.rows[id].status == RUNNING
    ensures HasJob(Step(s, e), id)
  {
    assert id in s.tables.rows;
    RowsMove(s, e, id);
    if s.tables.rows[id].status == RUNNING {
      var j :| j in s.jobs && s.jobs[j].submission == id;
      JobsMove(s, e, j);
    } else {
      assert Step(s, e).jobs[e.job].submission == id;
    }
  }

  lemma LogMoves(s: System, e: Event)
    requires Possible(s, e)
    ensures !e.Persist? ==> Step(s, e).log == s.log
    ensures e.Persist? ==>
      && Step(s, e).log == s.log + [Step(s, e).log[|s.log|]]
      && Step(s, e).log[|s.log|].submission == s.jobs[e.job].submission
      && RecordFits(Step(s, e), Step(s, e).log[|s.log|])
  {
    if e.Persist? {
      assert Step(s, e).jobs[e.job].submission == s.jobs[e.job].submission;
    }
  }

  lemma RecordKeeps(s: System, e: Event, r: Record)
    requires JobsFit(s) && Possible(s, e) && RecordFits(s, r)
    ensures RecordFits(Step(s, e), r)
    ensures e.Persist? ==> r.submission != s.jobs[e.job].submission
  {
    hide Step, Possible;
    RowsMove(s, e, r.submission);
    var j :| j in s.jobs && s.jobs[j].submission == r.submission && s.jobs[j].stage != Judging;
    JobsMove(s, e, j);
    if e.Persist? { PersistJudging(s, e); }
  }

  lemma PersistJudging(s: System, e: Event)
    requires Possible(s, e) && e.Persist?
    ensures e.job in s.jobs && s.jobs[e.job].stage == Judging
  {
  }

  lemma LogKeeps(s: System, e: Event)
    requires Inv(s) && Possible(s, e)
    ensures LogFits(Step(s, e))
  {
    hide Step, Possible, JobsFit, VerdictsFit, CountersFit, ProgressFits, RecordFits;
    var t := Step(s, e);
    LogMoves(s, e);
    if e.Persist? { PersistJudging(s, e); }
    forall k | 0 <= k < |s.log|
      ensures RecordFits(t, s.log[k]) && (e.Persist? ==> s.log[k].submission != s.jobs[e.job].submission)
    {
      RecordKeeps(s, e, s.log[k]);
    }
    forall id | id in t.tables.rows && t.tables.rows[id].status == COMPLETED ensures Counted(t, id) {
      CompletedCounted(s, e, id);
    }
  }

  lemma CompletedCounted(s: System, e: Event, id: Id)
    requires LogFits(s) && Possible(s, e)
    requires id in Step(s, e).tables.rows && Step(s, e).tables.rows[id].status == COMPLETED
    ensures Counted(Step(s, e), id)
  {
    LogMoves(s, e);
    var t := Step(s, e);
    assert id in s.tables.rows;
    RowsMove(s, e, id);
    if s.tables.rows[id].status == COMPLETED {
      var k :| 0 <= k < |s.log| && s.log[k].submission == id;
      assert t.log[k].submission == id;
    } else {
      assert t.log[|s.log|].submission == id;
    }
  }

  lemma VerdictsKeep(s: System, e: Event)
    requires VerdictsFit(s.tables) && Possible(s, e)
    ensures VerdictsFit(Step(s, e).tables)
  {
  }

  lemma CountersKeep(s: System, e: Event)
    requires CountersFit(s.tables, s.log) && Possible(s, e)
    ensures CountersFit(Step(s, e).tables, Step(s, e).log)
  {
    var t := Step(s, e);
    if e.Persist? {
      assert t.log[..|t.log| - 1] == s.log;
    }
  }

  lemma ProgressKeeps(s: System, e: Event)
    requires Inv(s) && Possible(s, e)
    ensures ProgressFits(Step(s, e).tables, Step(s, e).log)
  {
    var t := Step(s, e);
    forall u, p ensures ProgressFitsFor(t.tables, t.log, u, p) {
      assert ProgressFitsFor(s.tables, s.log, u, p);
      if e.Persist? {
        PersistProgress(s.tables, s.log, t.log[|s.log|], u, p);
      }
    }
  }

  /** One more commit moves the progress row the way the commits say. */
  lemma PersistProgress(t: Tables, log: seq<Record>, r: Record, u: Id, p: Id)
    requires ProgressFitsFor(t, log, u, p)
    ensures ProgressFitsFor(t.(progress := Progressed(t.progress, (r.user, r.problem), r.verdict == ACCEPTED, r.at)),
                            log + [r], u, p)
  {
    var longer := log + [r];
    assert longer[..|longer| - 1] == log;
    var before := if (u, p) in t.progress then t.progress[(u, p)].firstSolvedAt else None;
    if (u, p) !in t.progress {
      NoAttempts(log, u, p);
    }
    assert FirstSolved(log, u, p, before);
    if before.Some? {
      var k :| 0 <= k < |log| && log[k] == Record(log[k].submission, u, p, ACCEPTED, before.value)
        && forall j :: 0 <= j < k && log[j].user == u && log[j].problem == p ==> log[j].verdict != ACCEPTED;
      assert longer[k] == log[k];
      assert FirstSolved(longer, u, p, before);
    } else if r.user == u && r.problem == p && r.verdict == ACCEPTED {
      assert longer[|log|] == r;
      assert FirstSolved(longer, u, p, Some(r.at));
    } else {
      assert FirstSolved(longer, u, p, None);
    }
  }

  lemma {:induction false} NoAttempts(log: seq<Record>, u: Id, p: Id)
    requires Attempts(log, u, p) == 0
    ensures forall k :: 0 <= k < |log| ==> !(log[k].user == u && log[k].problem == p)
  {
    if log != [] { NoAttempts(log[..|log| - 1], u, p); }
  }

  lemma {:induction false} InvAlong(s: System, events: seq<Event>, t: System)
    requires Inv(s) && Leads(s, events, t)
    ensures Inv(t)
    decreases |events|
  {
    if events != [] {
      JobsKeep(s, events[0]);
      LogKeeps(s, events[0]);
      VerdictsKeep(s, events[0]);
      CountersKeep(s, events[0]);
      ProgressKeeps(s, events[0]);
      InvAlong(Step(s, events[0]), events[1..], t);
    }
  }

  /** In every run, everything above holds at every moment. */
  lemma ReachableInv(problems: set<Id>, s: System)
    requires Reachable(problems, s)
    ensures Inv(s)
  {
    var events :| Leads(Start(problems), events, s);
    assert Inv(Start(problems)) by {
      var t := Start(problems);
      forall u, p ensures ProgressFitsFor(t.tables, t.log, u, p) { }
    }
    InvAlong(Start(problems), events, s);
  }

  // ----- the promises, read off the invariant -----

  /** The submissions of problem p that were persisted, with a verdict from `verdicts`. */
  ghost function PersistedOn(log: seq<Record>, p: Id, verdicts: set<Verdict>): set<Id> {
    set k | 0 <= k < |log| && log[k].problem == p && log[k].verdict in verdicts :: log[k].submission
  }

  ghost function AnyVerdict(): set<Verdict> {
    {ACCEPTED, WRONG_ANSWER, TIME_LIMIT_EXCEEDED, MEMORY_LIMIT_EXCEEDED, RUNTIME_ERROR, COMPILATION_ERROR, SYSTEM_ERROR}
  }

  lemma EveryVerdict(v: Verdict)
    ensures v in AnyVerdict()
  {
    match v {
      case ACCEPTED => case WRONG_ANSWER => case TIME_LIMIT_EXCEEDED => case MEMORY_LIMIT_EXCEEDED =>
      case RUNTIME_ERROR => case COMPILATION_ERROR => case SYSTEM_ERROR =>
    }
  }

  lemma {:induction false} TotalIsPersisted(log: seq<Record>, p: Id)
    requires forall i, k :: 0 <= i < k < |log| ==> log[i].submission != log[k].submission
    ensures Total(log, p) == |PersistedOn(log, p, AnyVerdict())|
  {
    if log == [] {
      assert PersistedOn(log, p, AnyVerdict()) == {};
    } else {
      TotalIsPersisted(log[..|log| - 1], p);
      EveryVerdict(log[|log| - 1].verdict);
      PersistedLast(log, p, AnyVerdict());
    }
  }

  lemma {:induction false} AcceptedIsPersisted(log: seq<Record>, p: Id)
    requires forall i, k :: 0 <= i < k < |log| ==> log[i].submission != log[k].submission
    ensures Accepted(log, p) == |PersistedOn(log, p, {ACCEPTED})|
  {
    if log == [] {
      assert PersistedOn(log, p, {ACCEPTED}) == {};
    } else {
      AcceptedIsPersisted(log[..|log| - 1], p);
      PersistedLast(log, p, {ACCEPTED});
    }
  }

  lemma PersistedLast(log: seq<Record>, p: Id, verdicts: set<Verdict>)
    requires log != [] && forall i, k :: 0 <= i < k < |log| ==> log[i].submission != log[k].submission
    ensures var r, before := log[|log| - 1], PersistedOn(log[..|log| - 1], p, verdicts);
            && PersistedOn(log, p, verdicts)
               == before + (if r.problem == p && r.verdict in verdicts then {r.submission} else {})
            && r.submission !in before
  {
    var front, r := log[..|log| - 1], log[|log| - 1];
    forall id | id in PersistedOn(log, p, verdicts) && id != r.submission
      ensures id in PersistedOn(front, p, verdicts)
    {
      var k :| 0 <= k < |log| && log[k].problem == p && log[k].verdict in verdicts && log[k].submission == id;
      assert front[k] == log[k];
    }
    forall id | id in PersistedOn(front, p, verdicts)
      ensures id in PersistedOn(log, p, verdicts) && id != r.submission
    {
      var k :| 0 <= k < |front| && front[k].problem == p && front[k].verdict in verdicts && front[k].submission == id;
      assert log[k] == front[k];
    }
  }

  /** The attempts recorded for problem p, summed over some users. */
  ghost function AttemptsOf(progress: map<(Id, Id), Progress>, users: set<Id>, p: Id): nat {
    if users == {} then 0 else
    var u :| u in users;
    (if (u, p) in progress then progress[(u, p)].attempts else 0) + AttemptsOf(progress, users - {u}, p)
  }

  ghost function CommitsOf(log: seq<Record>, users: set<Id>, p: Id): nat {
    if log == [] then 0 else
    var r := log[|log| - 1];
    CommitsOf(log[..|log| - 1], users, p) + if r.user in users && r.problem == p then 1 else 0
  }

  lemma {:induction false} CommitsSplit(log: seq<Record>, users: set<Id>, u: Id, p: Id)
    requires u in users
    ensures CommitsOf(log, users, p) == Attempts(log, u, p) + CommitsOf(log, users - {u}, p)
  {
    if log != [] { CommitsSplit(log[..|log| - 1], users, u, p); }
  }

  lemma {:induction false} CommitsOfNobody(log: seq<Record>, p: Id)
    ensures CommitsOf(log, {}, p) == 0
  {
    if log != [] { CommitsOfNobody(log[..|log| - 1], p); }
  }

  lemma {:induction false} CommitsOfAll(log: seq<Record>, users: set<Id>, p: Id)
    requires forall k :: 0 <= k < |log| && log[k].problem == p ==> log[k].user in users
    ensures CommitsOf(log, users, p) == Total(log, p)
  {
    if log != [] { CommitsOfAll(log[..|log| - 1], users, p); }
  }

  lemma {:induction false} AttemptsAreCommits(t: Tables, log: seq<Record>, users: set<Id>, p: Id)
    requires ProgressFits(t, log)
    ensures AttemptsOf(t.progress, users, p) == CommitsOf(log, users, p)
    decreases users
  {
    if users == {} {
      CommitsOfNobody(log, p);
    } else {
      var u :| u in users && AttemptsOf(t.progress, users, p)
        == (if (u, p) in t.progress then t.progress[(u, p)].attempts else 0) + AttemptsOf(t.progress, users - {u}, p);
      AttemptsAreCommits(t, log, users - {u}, p);
      CommitsSplit(log, users, u, p);
      assert ProgressFitsFor(t, log, u, p);
    }
  }

  ghost function UsersOn(log: seq<Record>, p: Id): set<Id> {
    set k | 0 <= k < |log| && log[k].problem == p :: log[k].user
  }

  /** At every moment of every run: nothing is claimed twice or persisted twice; a problem's counters are the numbers
      of its persisted and of its accepted submissions, and the attempts of all users on it add up to the former. */
  lemma CountersExact(problems: set<Id>, s: System, p: Id)
    requires Reachable(problems, s) && p in s.tables.counters
    ensures forall i, j :: i in s.jobs && j in s.jobs && i != j ==> s.jobs[i].submission != s.jobs[j].submission
    ensures forall i, k :: 0 <= i < k < |s.log| ==> s.log[i].submission != s.log[k].submission
    ensures s.tables.counters[p].total == |PersistedOn(s.log, p, AnyVerdict())|
    ensures s.tables.counters[p].accepted == |PersistedOn(s.log, p, {ACCEPTED})|
    ensures s.tables.counters[p].total == AttemptsOf(s.tables.progress, UsersOn(s.log, p), p)
    ensures forall u :: (u, p) in s.tables.progress ==> u in UsersOn(s.log, p)
  {
    ReachableInv(problems, s);
    TotalIsPersisted(s.log, p);
    AcceptedIsPersisted(s.log, p);
    AttemptsAreCommits(s.tables, s.log, UsersOn(s.log, p), p);
    CommitsOfAll(s.log, UsersOn(s.log, p), p);
    forall u | (u, p) in s.tables.progress ensures u in UsersOn(s.log, p) {
      assert ProgressFitsFor(s.tables, s.log, u, p);
      SomeAttempt(s.log, u, p);
    }
  }

  lemma {:induction false} SomeAttempt(log: seq<Record>, u: Id, p: Id)
    requires Attempts(log, u, p) > 0
    ensures u in UsersOn(log, p)
  {
    var front, r := log[..|log| - 1], log[|log| - 1];
    if !(r.user == u && r.problem == p) {
      SomeAttempt(front, u, p);
      var k :| 0 <= k < |front| && front[k].problem == p && front[k].user == u;
      assert log[k] == front[k];
    }
  }

  /** At every moment of every run: a verdict is shown iff the submission is COMPLETED or FAILED, and it is SYSTEM_ERROR
      iff FAILED; a COMPLETED submission was counted, one still open was not; a user has solved a problem iff one of
      their commits on it was ACCEPTED, and `first_solved_at` is the moment of the first of those. */
  lemma StatusExact(problems: set<Id>, s: System, id: Id)
    requires Reachable(problems, s) && id in s.tables.rows
    ensures var row := s.tables.rows[id];
            && (row.verdict.Some? <==> row.status == COMPLETED || row.status == FAILED)
            && (row.verdict == Some(SYSTEM_ERROR) <==> row.status == FAILED)
            && (row.status == COMPLETED ==> Counted(s, id))
            && (Open(row) ==> !Counted(s, id))
    ensures var key := (s.tables.rows[id].user, s.tables.rows[id].problem);
            key in s.tables.progress ==>
              && s.tables.progress[key].attempts == Attempts(s.log, key.0, key.1)
              && FirstSolved(s.log, key.0, key.1, s.tables.progress[key].firstSolvedAt)
              && (s.tables.progress[key].solved <==> s.tables.progress[key].firstSolvedAt.Some?)
  {
    ReachableInv(problems, s);
    if Counted(s, id) {
      var k :| 0 <= k < |s.log| && s.log[k].submission == id;
      assert RecordFits(s, s.log[k]);
    }
    assert ProgressFitsFor(s.tables, s.log, s.tables.rows[id].user, s.tables.rows[id].problem);
  }

  // ----- streaks -----

  /** The days of the user's ACCEPTED commits, in the order of the commits. */
  function AcceptedDays(log: seq<Record>, u: Id): seq<int> {
    if log == [] then [] else
    var r := log[|log| - 1];
    AcceptedDays(log[..|log| - 1], u) + if r.user == u && r.verdict == ACCEPTED then [DayOf(r.at)] else []
  }

  /** A user's streak row, if there is one. */
  function StreakOf(t: Tables, u: Id): Option<Streaks.Streak> {
    if u in t.streaks then Some(t.streaks[u]) else None
  }

  ghost predicate StreakFits(t: Tables, log: seq<Record>, u: Id) {
    StreakOf(t, u) == Upserts.InTurn(Streaks.OPS, AcceptedDays(log, u), None)
  }

  /** One more accepted commit moves a streak row the way the list of days says. */
  lemma InTurnNext(days: seq<int>, today: int)
    ensures Upserts.InTurn(Streaks.OPS, days + [today], None)
         == Some(Upserts.Upserted(Streaks.OPS, today, Upserts.InTurn(Streaks.OPS, days, None)))
  {
    assert (days + [today])[..|days|] == days;
  }

  lemma DaysNext(log: seq<Record>, r: Record, u: Id)
    ensures AcceptedDays(log + [r], u)
         == if r.user == u && r.verdict == ACCEPTED then AcceptedDays(log, u) + [DayOf(r.at)] else AcceptedDays(log, u)
  {
    assert (log + [r])[..|log|] == log && AcceptedDays(log, u) + [] == AcceptedDays(log, u);
  }

  lemma MarkedNext(streaks: map<Id, Streaks.Streak>, u: Id, today: int)
    ensures Marked(streaks, u, today)
         == streaks[u := Upserts.Upserted(Streaks.OPS, today, if u in streaks then Some(streaks[u]) else None)]
  {
  }

  lemma StreakMoves(s: System, e: Event, u: Id)
    requires Possible(s, e)
    ensures !e.Persist? ==> Step(s, e).tables.streaks == s.tables.streaks
    ensures e.Persist? ==>
      var (row, t) := (s.tables.rows[s.jobs[e.job].submission], Step(s, e));
      && t.log == s.log + [Record(s.jobs[e.job].submission, row.user, row.problem, e.verdict, e.now)]
      && t.tables.streaks == if e.verdict == ACCEPTED then Marked(s.tables.streaks, row.user, DayOf(e.now))
                             else s.tables.streaks
  {
  }

  lemma StreakKeeps(s: System, e: Event, u: Id)
    requires StreakFits(s.tables, s.log, u) && Possible(s, e)
    ensures StreakFits(Step(s, e).tables, Step(s, e).log, u)
  {
    StreakMoves(s, e, u);
    LogMoves(s, e);
    if e.Persist? {
      var row := s.tables.rows[s.jobs[e.job].submission];
      DaysNext(s.log, Record(s.jobs[e.job].submission, row.user, row.problem, e.verdict, e.now), u);
      InTurnNext(AcceptedDays(s.log, u), DayOf(e.now));
      MarkedNext(s.tables.streaks, row.user, DayOf(e.now));
    }
    hide Step, Possible, Marked, AcceptedDays, Upserts.InTurn, Upserts.Upserted, DayOf;
  }

  lemma {:induction false} StreakAlong(s: System, events: seq<Event>, t: System, u: Id)
    requires StreakFits(s.tables, s.log, u) && Leads(s, events, t)
    ensures StreakFits(t.tables, t.log, u)
    decreases |events|
  {
    if events != [] {
      StreakKeeps(s, events[0], u);
      StreakAlong(Step(s, events[0]), events[1..], t, u);
    }
  }

  /** At every moment of every run a user has a streak iff one of their commits was ACCEPTED, and if those commits came
      in the order of their days, it is the run of days that ends with the last of them, and the longest run ever. */
  lemma StreakExact(problems: set<Id>, s: System, u: Id)
    requires Reachable(problems, s)
    ensures var days := AcceptedDays(s.log, u);
      && (u in s.tables.streaks <==> days != [])
      && (days != [] && Streaks.NonDecreasing(days) ==> Streaks.StandsFor(Streaks.Days(days), s.tables.streaks[u]))
  {
    var events :| Leads(Start(problems), events, s);
    StreakAlong(Start(problems), events, s, u);
    var days := AcceptedDays(s.log, u);
    if days != [] && Streaks.NonDecreasing(days) { Streaks.StreakIsRun(days); }
  }

  // ----- FAILED and counted -----

  /** Whatever step newly makes a submission FAILED (a failure, the reaper, the queue): it is counted exactly if it was
      COMPLETED. */
  lemma FailedCountsIffCompleted(problems: set<Id>, s: System, e: Event, id: Id)
    requires Reachable(problems, s) && Possible(s, e) && id in s.tables.rows
    requires s.tables.rows[id].status != FAILED && Step(s, e).tables.rows[id].status == FAILED
    ensures Counted(Step(s, e), id) <==> s.tables.rows[id].status == COMPLETED
  {
    ReachableInv(problems, s);
    LogMoves(s, e);
    if e.Persist? { RowsMove(s, e, id); }
    assert Step(s, e).log == s.log;
    if Counted(s, id) {
      var k :| 0 <= k < |s.log| && s.log[k].submission == id;
      assert RecordFits(s, s.log[k]);
    }
  }

  /** A job between its commit and its end has been counted. */
  ghost predicate CommitsFit(s: System) {
    forall j :: j in s.jobs && s.jobs[j].stage == Committed ==> Counted(s, s.jobs[j].submission)
  }

  lemma CommitsKeep(s: System, e: Event)
    requires CommitsFit(s) && Possible(s, e)
    ensures CommitsFit(Step(s, e))
  {
    LogMoves(s, e);
    var t := Step(s, e);
    forall j | j in t.jobs && t.jobs[j].stage == Committed ensures Counted(t, t.jobs[j].submission) {
      if e.Persist? && e.job == j {
        assert t.log[|s.log|].submission == t.jobs[j].submission;
      } else {
        NewlyCommitted(s, e, j);
        var k :| 0 <= k < |s.log| && s.log[k].submission == s.jobs[j].submission;
        assert t.log[k] == s.log[k];
      }
    }
  }

  lemma NewlyCommitted(s: System, e: Event, j: Id)
    requires Possible(s, e) && j in Step(s, e).jobs && Step(s, e).jobs[j].stage == Committed
    requires !(e.Persist? && e.job == j)
    ensures j in s.jobs && s.jobs[j] == Step(s, e).jobs[j]
  {
  }

  lemma {:induction false} CommitsAlong(s: System, events: seq<Event>, t: System)
    requires CommitsFit(s) && Leads(s, events, t)
    ensures CommitsFit(t)
    decreases |events|
  {
    if events != [] {
      CommitsKeep(s, events[0]);
      CommitsAlong(Step(s, events[0]), events[1..], t);
    }
  }

  /** "Does not count as an attempt" is true of a call of `_fail` exactly when the exception came before the commit of
      its job, whatever the row looks like by then. */
  lemma FailCountsIffCommitted(problems: set<Id>, s: System, j: Id)
    requires Reachable(problems, s) && Possible(s, Fail(j))
    ensures Counted(Step(s, Fail(j)), s.jobs[j].submission) <==> s.jobs[j].stage == Committed
  {
    var events :| Leads(Start(problems), events, s);
    CommitsAlong(Start(problems), events, s);
    ReachableInv(problems, s);
    LogMoves(s, Fail(j));
    var id := s.jobs[j].submission;
    if Counted(s, id) {
      var k :| 0 <= k < |s.log| && s.log[k].submission == id;
      assert RecordFits(s, s.log[k]);
    }
  }

  // ----- when a terminal status can still move -----

  ghost predicate Moves(s: System, e: Event, id: Id)
    requires id in s.tables.rows
  {
    Possible(s, e) && id in Step(s, e).tables.rows && Step(s, e).tables.rows[id].status != s.tables.rows[id].status
  }

  /** Job j works on the submission and is in the given stage. */
  predicate WorksOn(s: System, j: Id, id: Id) {
    j in s.jobs && s.jobs[j].submission == id
  }

  /** A FAILED row still has a worker that has not committed; a COMPLETED one has a worker that has not ended, or its
      request still waits for the queue. */
  ghost predicate Unsettled(s: System, id: Id)
    requires id in s.tables.rows
  {
    if s.tables.rows[id].status == FAILED then exists j :: WorksOn(s, j, id) && s.jobs[j].stage == Judging
    else id in s.enqueueing || exists j :: WorksOn(s, j, id) && s.jobs[j].stage != Ended
  }

  /** A terminal status is final exactly when the row is settled. */
  lemma TerminalMovesIff(problems: set<Id>, s: System, id: Id)
    requires Reachable(problems, s) && id in s.tables.rows && !Open(s.tables.rows[id])
    ensures (exists e :: Moves(s, e, id)) <==> Unsettled(s, id)
  {
    ReachableInv(problems, s);
    assert s.tables.rows[id].problem in s.tables.counters;
    hide Moves, Inv;
    if e: Event :| Moves(s, e, id) { MovesUnsettled(s, e, id); }
    if Unsettled(s, id) { var e := UnsettledMoves(s, id); }
  }

  lemma UnsettledMoves(s: System, id: Id) returns (e: Event)
    requires id in s.tables.rows && !Open(s.tables.rows[id]) && s.tables.rows[id].problem in s.tables.counters
    requires Unsettled(s, id)
    ensures Moves(s, e, id)
  {
    if s.tables.rows[id].status == FAILED {
      var j :| WorksOn(s, j, id) && s.jobs[j].stage == Judging;
      e := Persist(j, ACCEPTED, 0);
    } else if id in s.enqueueing {
      e := EnqueueFailed(id);
    } else {
      var j :| WorksOn(s, j, id) && s.jobs[j].stage != Ended;
      e := Fail(j);
    }
  }

  lemma MovesUnsettled(s: System, e: Event, id: Id)
    requires id in s.tables.rows && !Open(s.tables.rows[id]) && Moves(s, e, id)
    ensures Unsettled(s, id)
  {
    match e
    case Persist(j, _, _) => assert WorksOn(s, j, id);
    case Fail(j) => assert WorksOn(s, j, id);
    case _ =>
  }

  lemma {:induction false} LeadsOn(s: System, events: seq<Event>, t: System, e: Event)
    requires Leads(s, events, t) && Possible(t, e)
    ensures Leads(s, events + [e], Step(t, e))
    decreases |events|
  {
    if events == [] {
      assert (events + [e])[1..] == [];
    } else {
      LeadsOn(Step(s, events[0]), events[1..], t, e);
      assert (events + [e])[1..] == events[1..] + [e];
    }
  }

  lemma ReachNext(problems: set<Id>, s: System, e: Event)
    requires Reachable(problems, s) && Possible(s, e)
    ensures Reachable(problems, Step(s, e))
  {
    var events :| Leads(Start(problems), events, s);
    LeadsOn(Start(problems), events, s, e);
  }

  /** A problem nobody has finished: submission 7 of user 5 on problem 1. */
  ghost function Scene(status: Status, verdict: Option<Verdict>, jobs: map<Id, Job>, sweeps: map<Id, set<Id>>): System {
    System(Tables(map[7 := Submission(5, 1, 0, status, verdict)], map[1 := Counters(0, 0)], map[], map[]),
           jobs, {7}, sweeps, [])
  }

  lemma CreateScene()
    ensures Possible(Start({1}), Create(7, 5, 1, 0))
    ensures Step(Start({1}), Create(7, 5, 1, 0)) == Scene(QUEUED, None, map[], map[])
  {
  }

  lemma DeliverScene()
    ensures var s := Scene(QUEUED, None, map[], map[]);
            && Possible(s, Deliver(0, 7))
            && Step(s, Deliver(0, 7)) == Scene(RUNNING, None, map[0 := Job(7, Judging)], map[])
  {
  }

  lemma SelectScene()
    ensures var s := Scene(RUNNING, None, map[0 := Job(7, Judging)], map[]);
            && Possible(s, SweepSelect(0, 50))
            && Step(s, SweepSelect(0, 50)) == Scene(RUNNING, None, map[0 := Job(7, Judging)], map[0 := {7}])
  {
    var s := Scene(RUNNING, None, map[0 := Job(7, Judging)], map[]);
    assert Stale(s.tables, 50) == {7};
  }

  lemma SweepScene()
    ensures var s := Scene(RUNNING, None, map[0 := Job(7, Judging)], map[0 := {7}]);
            && Possible(s, SweepUpdate(0))
            && Step(s, SweepUpdate(0)) == Scene(FAILED, Some(SYSTEM_ERROR), map[0 := Job(7, Judging)], map[])
  {
    var s := Scene(RUNNING, None, map[0 := Job(7, Judging)], map[0 := {7}]);
    assert Swept(s.tables, {7}).rows == map[7 := Submission(5, 1, 0, FAILED, Some(SYSTEM_ERROR))];
  }

  /** Claimed by job 0, then given up by the reaper while the worker is still busy. */
  ghost function GivenUp(): System {
    Scene(FAILED, Some(SYSTEM_ERROR), map[0 := Job(7, Judging)], map[])
  }

  lemma GivenUpReachable()
    ensures Reachable({1}, GivenUp())
  {
    hide Step, Possible, Scene;
    CreateScene();
    DeliverScene();
    SelectScene();
    SweepScene();
    assert Leads(Start({1}), [], Start({1}));
    ReachNext({1}, Start({1}), Create(7, 5, 1, 0));
    ReachNext({1}, Scene(QUEUED, None, map[], map[]), Deliver(0, 7));
    ReachNext({1}, Scene(RUNNING, None, map[0 := Job(7, Judging)], map[]), SweepSelect(0, 50));
    ReachNext({1}, Scene(RUNNING, None, map[0 := Job(7, Judging)], map[0 := {7}]), SweepUpdate(0));
  }

  ghost function LateCommit(job: Job, row: Submission): System {
    System(Tables(map[7 := row], map[1 := Counters(1, 1)], map[(5, 1) := Progress(true, 1, Some(100), 100)],
                  map[5 := Streaks.Streak(1, 1, 0)]),
           map[0 := job], {7}, map[], [Record(7, 5, 1, ACCEPTED, 100)])
  }

  lemma LateCommitSteps()
    ensures Possible(GivenUp(), Persist(0, ACCEPTED, 100))
    ensures Step(GivenUp(), Persist(0, ACCEPTED, 100))
         == LateCommit(Job(7, Committed), Submission(5, 1, 0, COMPLETED, Some(ACCEPTED)))
  {
  }

  lemma LateFailSteps()
    ensures var s := LateCommit(Job(7, Committed), Submission(5, 1, 0, COMPLETED, Some(ACCEPTED)));
            && Possible(s, Fail(0))
            && Step(s, Fail(0)) == LateCommit(Job(7, Ended), Submission(5, 1, 0, FAILED, Some(SYSTEM_ERROR)))
  {
  }

  /** Neither terminal status is final: a FAILED submission that was not counted becomes COMPLETED, and an exception
      after that commit makes it FAILED although it stays counted, accepted and solved. */
  lemma TerminalIsNotFinal()
    ensures Reachable({1}, GivenUp()) && GivenUp().tables.rows[7].status == FAILED && !Counted(GivenUp(), 7)
    ensures Reachable({1}, LateCommit(Job(7, Committed), Submission(5, 1, 0, COMPLETED, Some(ACCEPTED))))
    ensures var failed := LateCommit(Job(7, Ended), Submission(5, 1, 0, FAILED, Some(SYSTEM_ERROR)));
            Reachable({1}, failed) && Counted(failed, 7)
  {
    hide Step, Possible;
    GivenUpReachable();
    LateCommitSteps();
    LateFailSteps();
    var completed := LateCommit(Job(7, Committed), Submission(5, 1, 0, COMPLETED, Some(ACCEPTED)));
    ReachNext({1}, GivenUp(), Persist(0, ACCEPTED, 100));
    ReachNext({1}, completed, Fail(0));
    assert LateCommit(Job(7, Ended), Submission(5, 1, 0, FAILED, Some(SYSTEM_ERROR))).log[0].submission == 7;
  }

  /** The worker has committed, and the request that enqueued the message has taken it for lost. */
  ghost function TakenForLost(job: Job): System {
    LateCommit(job, Submission(5, 1, 0, FAILED, Some(SYSTEM_ERROR))).(enqueueing := {})
  }

  lemma CommitScene()
    ensures var s := Scene(RUNNING, None, map[0 := Job(7, Judging)], map[]);
      && Possible(s, Persist(0, ACCEPTED, 100))
      && Step(s, Persist(0, ACCEPTED, 100))
         == LateCommit(Job(7, Committed), Submission(5, 1, 0, COMPLETED, Some(ACCEPTED)))
  {
  }

  lemma LostScenes()
    ensures var s := LateCommit(Job(7, Committed), Submission(5, 1, 0, COMPLETED, Some(ACCEPTED)));
      Possible(s, EnqueueFailed(7)) && Step(s, EnqueueFailed(7)) == TakenForLost(Job(7, Committed))
    ensures var s := TakenForLost(Job(7, Committed));
      Possible(s, Fail(0)) && Step(s, Fail(0)) == TakenForLost(Job(7, Ended))
  {
  }

  /** A run in which `_fail` finds the row FAILED already, and the submission counts all the same: claimed, persisted,
      its message taken for lost, then an exception. */
  lemma FailedBeforeFailCounts()
    ensures var s := TakenForLost(Job(7, Committed));
      && Reachable({1}, s) && Possible(s, Fail(0))
      && s.tables.rows[7].status == FAILED && Counted(Step(s, Fail(0)), 7)
  {
    hide Step, Possible, Scene;
    CreateScene();
    DeliverScene();
    CommitScene();
    LostScenes();
    assert Leads(Start({1}), [], Start({1}));
    ReachNext({1}, Start({1}), Create(7, 5, 1, 0));
    ReachNext({1}, Scene(QUEUED, None, map[], map[]), Deliver(0, 7));
    ReachNext({1}, Scene(RUNNING, None, map[0 := Job(7, Judging)], map[]), Persist(0, ACCEPTED, 100));
    ReachNext({1}, LateCommit(Job(7, Committed), Submission(5, 1, 0, COMPLETED, Some(ACCEPTED))), EnqueueFailed(7));
    assert TakenForLost(Job(7, Ended)).log[0].submission == 7;
  }

  // ----- the reaper -----

  /** A row is never lost, and keeps its user, problem and moment of creation. */
  lemma {:induction false} RowsStay(s: System, events: seq<Event>, t: System, id: Id)
    requires Leads(s, events, t) && id in s.tables.rows
    ensures id in t.tables.rows
    ensures var (was, now) := (s.tables.rows[id], t.tables.rows[id]);
      now.user == was.user && now.problem == was.problem && now.createdAt == was.createdAt
    ensures !Open(s.tables.rows[id]) ==> !Open(t.tables.rows[id])
    decreases |events|
  {
    if events != [] {
      RowsMove(s, events[0], id);
      hide Step, Possible;
      RowsStay(Step(s, events[0]), events[1..], t, id);
    }
  }

  /** A submission stays what it was created as: whose, on which problem, and when. */
  lemma CreatedStays(s: System, id: Id, user: Id, problem: Id, at: int, events: seq<Event>, t: System)
    requires Possible(s, Create(id, user, problem, at)) && Leads(Step(s, Create(id, user, problem, at)), events, t)
    ensures id in t.tables.rows
    ensures var row := t.tables.rows[id]; row.user == user && row.problem == problem && row.createdAt == at
  {
    RowsStay(Step(s, Create(id, user, problem, at)), events, t, id);
  }

  /** Whatever happens between the reaper's two statements, the second one leaves no selected row open and touches no
      row that was judged meanwhile, nor any that was not selected. */
  lemma SelectedAreClosed(s: System, horizon: int, events: seq<Event>, t: System)
    requires Leads(s, events, t)
    ensures var (ids, rows) := (Stale(s.tables, horizon), Swept(t.tables, Stale(s.tables, horizon)).rows);
      && (forall id :: id in ids ==> id in rows && !Open(rows[id]))
      && (forall id :: id in t.tables.rows && (id !in ids || !Open(t.tables.rows[id])) ==>
            id in rows && rows[id] == t.tables.rows[id])
  {
    forall id | id in Stale(s.tables, horizon) ensures id in t.tables.rows { RowsStay(s, events, t, id); }
  }

  lemma {:induction false} SelectionStays(s: System, sweep: Id, events: seq<Event>, t: System)
    requires Leads(s, events, t) && sweep in s.sweeps
    requires forall e :: e in events ==> !(e.SweepSelect? && e.sweep == sweep) && !(e.SweepUpdate? && e.sweep == sweep)
    ensures sweep in t.sweeps && t.sweeps[sweep] == s.sweeps[sweep]
    decreases |events|
  {
    if events != [] { SelectionStays(Step(s, events[0]), sweep, events[1..], t); }
  }

  /** A sweep over a whole run: its second statement changes exactly the rows that were open and older than the horizon
      when it selected and are open still. Those become FAILED with SYSTEM_ERROR; nothing else moves. */
  lemma SweepExact(s: System, sweep: Id, horizon: int, events: seq<Event>, t: System, id: Id)
    requires Leads(Step(s, SweepSelect(sweep, horizon)), events, t) && id in t.tables.rows
    requires forall e :: e in events ==> !(e.SweepSelect? && e.sweep == sweep) && !(e.SweepUpdate? && e.sweep == sweep)
    ensures Possible(t, SweepUpdate(sweep))
    ensures var u := Step(t, SweepUpdate(sweep));
      && u.tables.rows.Keys == t.tables.rows.Keys
      && u.tables.(rows := t.tables.rows) == t.tables
      && u.tables.rows[id] ==
           if id in s.tables.rows && s.tables.rows[id].status in {QUEUED, RUNNING}
              && s.tables.rows[id].createdAt < horizon && t.tables.rows[id].status in {QUEUED, RUNNING}
           then t.tables.rows[id].(status := FAILED, verdict := Some(SYSTEM_ERROR))
           else t.tables.rows[id]
  {
    SelectionStays(Step(s, SweepSelect(sweep, horizon)), sweep, events, t);
  }

  /** After the sweep nothing is open that was open and too old when it began, and a submission created at the horizon
      or later is as it was. */
  lemma SweepLeaves(s: System, sweep: Id, horizon: int, events: seq<Event>, t: System, id: Id)
    requires Leads(Step(s, SweepSelect(sweep, horizon)), events, t) && id in t.tables.rows
    requires forall e :: e in events ==> !(e.SweepSelect? && e.sweep == sweep) && !(e.SweepUpdate? && e.sweep == sweep)
    ensures Possible(t, SweepUpdate(sweep)) && id in Step(t, SweepUpdate(sweep)).tables.rows
    ensures var now := Step(t, SweepUpdate(sweep)).tables.rows[id];
      && (t.tables.rows[id].createdAt >= horizon ==> now == t.tables.rows[id])
      && (id in s.tables.rows && s.tables.rows[id].createdAt < horizon ==> !Open(now))
  {
    SweepExact(s, sweep, horizon, events, t, id);
    if id in s.tables.rows { RowsStay(Step(s, SweepSelect(sweep, horizon)), events, t, id); }
    hide Step, Possible, Leads;
  }

  // ----- the last attempt -----

  /** The moment of the user's last commit on the problem. */
  ghost predicate LastAttempt(log: seq<Record>, u: Id, p: Id, at: int) {
    exists k :: 0 <= k < |log| && log[k].user == u && log[k].problem == p && log[k].at == at
      && forall j :: k < j < |log| ==> !(log[j].user == u && log[j].problem == p)
  }

  ghost predicate LastFits(t: Tables, log: seq<Record>, u: Id, p: Id) {
    (u, p) in t.progress ==> LastAttempt(log, u, p, t.progress[(u, p)].lastAttemptAt)
  }

  lemma LastNext(progress: map<(Id, Id), Progress>, log: seq<Record>, r: Record, u: Id, p: Id)
    requires (u, p) in progress ==> LastAttempt(log, u, p, progress[(u, p)].lastAttemptAt)
    ensures var next := Progressed(progress, (r.user, r.problem), r.verdict == ACCEPTED, r.at);
      (u, p) in next ==> LastAttempt(log + [r], u, p, next[(u, p)].lastAttemptAt)
  {
    var more := log + [r];
    if r.user == u && r.problem == p {
      assert more[|log|] == r;
    } else if (u, p) in progress {
      var at := progress[(u, p)].lastAttemptAt;
      var k :| 0 <= k < |log| && log[k].user == u && log[k].problem == p && log[k].at == at
               && forall j :: k < j < |log| ==> !(log[j].user == u && log[j].problem == p);
      assert more[k] == log[k];
    }
  }

  lemma LastKeeps(s: System, e: Event, u: Id, p: Id)
    requires LastFits(s.tables, s.log, u, p) && Possible(s, e)
    ensures LastFits(Step(s, e).tables, Step(s, e).log, u, p)
  {
    ProgressMoves(s, e);
    if e.Persist? { LastNext(s.tables.progress, s.log, Step(s, e).log[|s.log|], u, p); }
    hide Step, Possible, LastAttempt, Progressed;
  }

  lemma ProgressMoves(s: System, e: Event)
    requires Possible(s, e)
    ensures !e.Persist? ==> Step(s, e).tables.progress == s.tables.progress && Step(s, e).log == s.log
    ensures e.Persist? ==>
      && |Step(s, e).log| == |s.log| + 1
      && var r := Step(s, e).log[|s.log|];
         && Step(s, e).log == s.log + [r] && r.at == e.now
         && Step(s, e).tables.progress
            == Progressed(s.tables.progress, (r.user, r.problem), r.verdict == ACCEPTED, r.at)
  {
  }

  lemma {:induction false} LastAlong(s: System, events: seq<Event>, t: System, u: Id, p: Id)
    requires LastFits(s.tables, s.log, u, p) && Leads(s, events, t)
    ensures LastFits(t.tables, t.log, u, p)
    decreases |events|
  {
    if events != [] {
      LastKeeps(s, events[0], u, p);
      LastAlong(Step(s, events[0]), events[1..], t, u, p);
    }
  }

  /** At every moment of every run `last_attempt_at` is the moment of the user's last commit on the problem. */
  lemma LastAttemptExact(problems: set<Id>, s: System, u: Id, p: Id)
    requires Reachable(problems, s) && (u, p) in s.tables.progress
    ensures LastAttempt(s.log, u, p, s.tables.progress[(u, p)].lastAttemptAt)
  {
    var events :| Leads(Start(problems), events, s);
    LastAlong(Start(problems), events, s, u, p);
  }
}
