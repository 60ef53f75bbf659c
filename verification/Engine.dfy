/** From sandbox runs to a verdict: the mapping of one run, the order of the tests, and the loop over them. The sandbox
    is foreign: its answers are input, and a missing answer is a SandboxError. */
module Engine {
  import opened Wrappers
  import opened Verdicts
  import opened Supervisor
  import PythonSorted
  import Reply

  datatype JudgeTest = JudgeTest(input: string, expected: string, visible: bool, id: Option<string>)

  /** One run as the engine sees it: the output is decoded text. */
  datatype RunResult = RunResult(status: RunStatus, exitCode: Option<int>, signal: Option<int>, timeMs: int,
                                 memoryKb: int, stdout: string, stderr: string)

  type Checker = (string, string) -> bool

  // ----- one run -----

  datatype Termination = OutputLimitExceeded | TerminatedBy(signal: int) | ExitedWith(code: Option<int>)

  function DescribeTermination(r: RunResult): Termination {
    if r.status == OUTPUT_LIMIT then OutputLimitExceeded
    else if r.signal.Some? then TerminatedBy(r.signal.value)
    else ExitedWith(r.exitCode)
  }

  /** `verdict_for`. */
  function VerdictFor(r: RunResult, expected: string, checker: Checker): (Verdict, Option<Termination>) {
    if r.status == TIMEOUT then (TIME_LIMIT_EXCEEDED, None)
    else if r.status == MEMORY then (MEMORY_LIMIT_EXCEEDED, None)
    else if r.status != EXITED || r.exitCode != Some(0) then (RUNTIME_ERROR, Some(DescribeTermination(r)))
    else if checker(expected, r.stdout) then (ACCEPTED, None)
    else (WRONG_ANSWER, None)
  }

  /** What the engine is given of a supervisor's report. */
  function Decoded(report: Report, decode: Bytes -> string): RunResult {
    RunResult(report.status, report.exitCode, report.signal, report.cpuMs, report.memoryKb,
              decode(report.out), decode(report.err))
  }

  /** The whole way from the child to the verdict: the supervisor's report, written and read back, is accepted exactly
      if the child exited by itself with code 0, kept every limit, and all it wrote passes the checker. */
  lemma AcceptedIff(l: Limits, polls: seq<Poll>, end: Ending, report: Report, decode: Bytes -> string,
                    expected: string, checker: Checker)
    requires IsReportOf(l, polls, end, report)
    ensures match Reply.ReadResult(Reply.Write(report))
      case Ok(read) =>
        VerdictFor(Decoded(read, decode), expected, checker).0 == ACCEPTED
        <==> Within(l, polls, end) && end.code == 0 && checker(expected, decode(Written(AllChunks(polls, end), Stdout)))
      case _ => false
  {
    Reply.ReadWritten(report);
    hide Within, Guilty, Written, AllChunks, Peak, Reply.ReadResult, Reply.Write;
    assert Within(l, polls, end) ==> report.out == Written(AllChunks(polls, end), Stdout) by {
      WithinIsWhole(l, polls, end);
    }
  }

  /** The exact verdict of every run: the supervisor's report, written and read back, gives TIME_LIMIT_EXCEEDED and
      MEMORY_LIMIT_EXCEEDED to the runs that earned TIMEOUT and MEMORY, WRONG_ANSWER to those that ended with 0 within
      every limit and wrote what the checker rejects, and RUNTIME_ERROR to the rest. */
  lemma VerdictIff(l: Limits, polls: seq<Poll>, end: Ending, report: Report, decode: Bytes -> string, expected: string,
                   checker: Checker)
    requires IsReportOf(l, polls, end, report)
    ensures match Reply.ReadResult(Reply.Write(report))
      case Ok(read) =>
        var verdict := VerdictFor(Decoded(read, decode), expected, checker).0;
        var passes := checker(expected, decode(Written(AllChunks(polls, end), Stdout)));
        && (verdict == TIME_LIMIT_EXCEEDED <==> Earns(l, polls, end, TIMEOUT))
        && (verdict == MEMORY_LIMIT_EXCEEDED <==> Earns(l, polls, end, MEMORY))
        && (verdict == ACCEPTED <==> Within(l, polls, end) && end.code == 0 && passes)
        && (verdict == WRONG_ANSWER <==> Within(l, polls, end) && end.code == 0 && !passes)
        && (verdict == RUNTIME_ERROR <==>
              || Earns(l, polls, end, OUTPUT_LIMIT) || Earns(l, polls, end, SIGNALED)
              || (Within(l, polls, end) && end.code != 0))
      case _ => false
  {
    Reply.ReadWritten(report);
    WithinIsWhole(l, polls, end);
    hide Within, Guilty, Earns, Written, AllChunks, Peak, First, Reply.ReadResult, Reply.Write;
    assert forall status :: report.status == status <==> Earns(l, polls, end, status);
  }

  /** The engine is told the numbers and the output of the run itself: the time the child used, the larger of the peak
      seen and the maximum reported, and the beginnings of what it wrote. */
  lemma ToldOfTheRun(l: Limits, polls: seq<Poll>, end: Ending, report: Report, decode: Bytes -> string)
    requires IsReportOf(l, polls, end, report)
    ensures match Reply.ReadResult(Reply.Write(report))
      case Ok(read) =>
        var run := Decoded(read, decode);
        && run.timeMs == end.cpuMs && run.memoryKb == Max(end.maxRssKb, Peak(l, polls, |polls|))
        && run.stdout == decode(First(l.maxOutput, Written(AllChunks(polls, end), Stdout)))
        && run.stderr == decode(First(l.maxStderr, Written(AllChunks(polls, end), Stderr)))
      case _ => false
  {
    Reply.ReadWritten(report);
    hide Within, Guilty, Earns, Written, AllChunks, Peak, First, Reply.ReadResult, Reply.Write;
  }

  /** The message of every run: there is one exactly for a run-time error, and it names the output limit, the signal the
      child died of, or the code it ended with. */
  lemma MessageIff(l: Limits, polls: seq<Poll>, end: Ending, report: Report, decode: Bytes -> string, expected: string,
                   checker: Checker)
    requires IsReportOf(l, polls, end, report)
    ensures var (verdict, message) := VerdictFor(Decoded(report, decode), expected, checker);
      && (message.Some? <==> verdict == RUNTIME_ERROR)
      && (message == Some(OutputLimitExceeded) <==> Earns(l, polls, end, OUTPUT_LIMIT))
      && (Earns(l, polls, end, SIGNALED) ==> message == Some(TerminatedBy(0 - end.code)))
      && (Within(l, polls, end) && end.code != 0 ==> message == Some(ExitedWith(Some(end.code))))
  {
    hide Within, Guilty, Earns, Written, AllChunks, Peak, First;
    assert forall status :: report.status == status <==> Earns(l, polls, end, status);
    assert Earns(l, polls, end, SIGNALED) ==> end.code < 0 by { SignaledBySignal(l, polls, end); }
    assert Within(l, polls, end) ==> end.code >= 0 by { WithinIsWhole(l, polls, end); }
  }

  lemma SignaledBySignal(l: Limits, polls: seq<Poll>, end: Ending)
    ensures Earns(l, polls, end, SIGNALED) ==> end.code < 0
  {
  }

  lemma WithinIsWhole(l: Limits, polls: seq<Poll>, end: Ending)
    ensures Within(l, polls, end) ==>
      First(l.maxOutput, Written(AllChunks(polls, end), Stdout)) == Written(AllChunks(polls, end), Stdout)
    ensures Within(l, polls, end) ==> end.code >= 0
  {
  }

  // ----- the order of the tests -----

  function Keys(tests: seq<JudgeTest>): (keys: seq<seq<int>>)
    ensures |keys| == |tests|
  {
    seq(|tests|, i requires 0 <= i < |tests| => [if tests[i].visible then 0 else 1])
  }

  function At(tests: seq<JudgeTest>, order: seq<nat>): (r: seq<JudgeTest>)
    requires forall a :: 0 <= a < |order| ==> order[a] < |tests|
    ensures |r| == |order|
  {
    seq(|order|, a requires 0 <= a < |order| => tests[order[a]])
  }

  /** `order_tests`. */
  function OrderTests(tests: seq<JudgeTest>): (r: seq<JudgeTest>)
    ensures |r| == |tests|
  {
    At(tests, PythonSorted.StableOrder(Keys(tests)))
  }

  /** The tests that are visible, or those that are not, in their own order. */
  ghost function Only(tests: seq<JudgeTest>, visible: bool): seq<JudgeTest> {
    if tests == [] then [] else
    var last := tests[|tests| - 1];
    Only(tests[..|tests| - 1], visible) + if last.visible == visible then [last] else []
  }

  ghost function Positions(tests: seq<JudgeTest>, visible: bool, n: nat): (r: seq<nat>)
    requires n <= |tests|
    ensures forall a :: 0 <= a < |r| ==> r[a] < n && tests[r[a]].visible == visible
  {
    if n == 0 then []
    else Positions(tests, visible, n - 1) + if tests[n - 1].visible == visible then [n - 1] else []
  }

  lemma KeyLeq(tests: seq<JudgeTest>, i: nat, j: nat)
    requires i < |tests| && j < |tests|
    ensures PythonSorted.LexLeq(Keys(tests)[i], Keys(tests)[j]) <==> (tests[i].visible || !tests[j].visible)
  {
    assert Keys(tests)[i][1..] == [] && Keys(tests)[j][1..] == [];
  }

  /** What Insert needs to know of the positions listed so far. */
  ghost predicate Listed(tests: seq<JudgeTest>, order: seq<nat>, i: nat)
    requires i <= |tests|
  {
    && (forall a :: 0 <= a < |order| ==> order[a] < i)
    && (forall a, b :: 0 <= a < b < |order| ==> PythonSorted.Ahead(Keys(tests), order[a], order[b]))
  }

  lemma InsertVisible(tests: seq<JudgeTest>, front: seq<nat>, back: seq<nat>, i: nat)
    requires i < |tests| && tests[i].visible && Listed(tests, front + back, i)
    requires forall a :: 0 <= a < |front| ==> front[a] < i && tests[front[a]].visible
    requires forall a :: 0 <= a < |back| ==> back[a] < i && !tests[back[a]].visible
    ensures PythonSorted.Insert(Keys(tests), front + back, i) == (front + [i]) + back
  {
    forall a | 0 <= a < |front| ensures PythonSorted.LexLeq(Keys(tests)[front[a]], Keys(tests)[i]) {
      KeyLeq(tests, front[a], i);
    }
    if back != [] { KeyLeq(tests, back[0], i); }
    hide PythonSorted.Insert, PythonSorted.LexLeq, PythonSorted.Ahead, Keys;
    PythonSorted.InsertBetween(Keys(tests), front, back, i);
  }

  lemma InsertHidden(tests: seq<JudgeTest>, order: seq<nat>, i: nat)
    requires i < |tests| && !tests[i].visible && Listed(tests, order, i)
    ensures PythonSorted.Insert(Keys(tests), order, i) == order + [i]
  {
    forall a | 0 <= a < |order| ensures PythonSorted.LexLeq(Keys(tests)[order[a]], Keys(tests)[i]) {
      KeyLeq(tests, order[a], i);
    }
    hide PythonSorted.Insert, PythonSorted.LexLeq, PythonSorted.Ahead, Keys;
    assert order + [] == order && order + [i] + [] == order + [i];
    PythonSorted.InsertBetween(Keys(tests), order, [], i);
  }

  lemma InsertNext(tests: seq<JudgeTest>, i: nat)
    requires i < |tests| && Listed(tests, Positions(tests, true, i) + Positions(tests, false, i), i)
    ensures PythonSorted.Insert(Keys(tests), Positions(tests, true, i) + Positions(tests, false, i), i)
         == Positions(tests, true, i + 1) + Positions(tests, false, i + 1)
  {
    var (front, back) := (Positions(tests, true, i), Positions(tests, false, i));
    hide PythonSorted.Insert, Listed, Keys;
    if tests[i].visible {
      InsertVisible(tests, front, back, i);
      assert back + [] == back;
    } else {
      InsertHidden(tests, front + back, i);
      assert front + [] == front && front + back + [i] == front + (back + [i]);
    }
  }

  lemma FirstAreListed(tests: seq<JudgeTest>, i: nat)
    requires i < |tests|
    ensures Listed(tests, PythonSorted.OrderFirst(Keys(tests), i), i)
    ensures PythonSorted.OrderFirst(Keys(tests), i + 1)
         == PythonSorted.Insert(Keys(tests), PythonSorted.OrderFirst(Keys(tests), i), i)
  {
    hide PythonSorted.Insert, PythonSorted.Ahead, Keys;
  }

  lemma {:induction false} OrderOfFirst(tests: seq<JudgeTest>, n: nat)
    requires n <= |tests|
    ensures PythonSorted.OrderFirst(Keys(tests), n) == Positions(tests, true, n) + Positions(tests, false, n)
  {
    hide PythonSorted.Insert, PythonSorted.Ahead, PythonSorted.IsStableOrder, Listed, Keys;
    if n > 0 {
      OrderOfFirst(tests, n - 1);
      FirstAreListed(tests, n - 1);
      InsertNext(tests, n - 1);
    }
  }

  lemma {:induction false} AtPositions(tests: seq<JudgeTest>, visible: bool, n: nat)
    requires n <= |tests|
    ensures At(tests, Positions(tests, visible, n)) == Only(tests[..n], visible)
  {
    if n > 0 {
      AtPositions(tests, visible, n - 1);
      assert tests[..n][..n - 1] == tests[..n - 1];
    }
  }

  lemma AtOfSum(tests: seq<JudgeTest>, a: seq<nat>, b: seq<nat>)
    requires forall k :: 0 <= k < |a| ==> a[k] < |tests|
    requires forall k :: 0 <= k < |b| ==> b[k] < |tests|
    ensures At(tests, a + b) == At(tests, a) + At(tests, b)
  {
  }

  /** All visible tests first, then the others, both in their own order. */
  lemma VisibleFirst(tests: seq<JudgeTest>)
    ensures OrderTests(tests) == Only(tests, true) + Only(tests, false)
  {
    var n := |tests|;
    OrderOfFirst(tests, n);
    AtPositions(tests, true, n);
    AtPositions(tests, false, n);
    AtOfSum(tests, Positions(tests, true, n), Positions(tests, false, n));
    assert tests[..n] == tests;
    hide PythonSorted.OrderFirst, PythonSorted.IsStableOrder, At, Keys, Positions, Only;
  }

  // ----- judging -----

  datatype CaseOutcome = CaseOutcome(position: nat, testId: Option<string>, visible: bool, verdict: Verdict,
                                     timeMs: int, memoryKb: int, message: Option<Termination>,
                                     captured: Option<Captured>)

  datatype Captured = Captured(input: string, expected: string, stdout: string, stderr: string)

  datatype JudgeReport = JudgeReport(verdict: Verdict, total: nat, passed: nat, compileOutput: Option<string>,
                                     message: Option<Termination>, runtimeMs: Option<int>, memoryKb: Option<int>,
                                     outcomes: seq<CaseOutcome>)

  datatype CompileResult = CompileResult(ok: bool, output: string)

  datatype Judged = TooManyTests | SandboxError | Reported(report: JudgeReport)

  /** What one run leaves in the report. */
  function OutcomeOf(position: nat, test: JudgeTest, r: RunResult, checker: Checker, capture: bool): CaseOutcome {
    var (verdict, message) := VerdictFor(r, test.expected, checker);
    CaseOutcome(position, test.id, test.visible, verdict, r.timeMs, r.memoryKb,
                if test.visible then message else None,
                if test.visible && capture then Some(Captured(test.input, test.expected, r.stdout, r.stderr)) else None)
  }

  predicate Passes(test: JudgeTest, answer: Option<RunResult>, checker: Checker) {
    answer.Some? && VerdictFor(answer.value, test.expected, checker).0 == ACCEPTED
  }

  /** The first test at or after i that does not pass, or the number of tests. */
  ghost function FirstFailure(tests: seq<JudgeTest>, answers: seq<Option<RunResult>>, checker: Checker,
                              i: nat): (f: nat)
    requires i <= |tests| == |answers|
    ensures i <= f <= |tests| && (f < |tests| ==> !Passes(tests[f], answers[f], checker))
    ensures forall k :: i <= k < f ==> Passes(tests[k], answers[k], checker)
    decreases |tests| - i
  {
    if i == |tests| || !Passes(tests[i], answers[i], checker) then i else FirstFailure(tests, answers, checker, i + 1)
  }

  /** How many tests are run. */
  ghost function Reached(tests: seq<JudgeTest>, answers: seq<Option<RunResult>>, checker: Checker, stop: bool): (n: nat)
    requires |tests| == |answers|
    ensures n <= |tests|
  {
    var f := FirstFailure(tests, answers, checker, 0);
    if stop && f < |tests| then f + 1 else |tests|
  }

  function Accepted(outcomes: seq<CaseOutcome>): (n: nat)
    ensures n <= |outcomes|
  {
    if outcomes == [] then 0
    else Accepted(outcomes[..|outcomes| - 1]) + if outcomes[|outcomes| - 1].verdict == ACCEPTED then 1 else 0
  }

  predicate IsLargest(m: Option<int>, values: seq<int>) {
    if values == [] then m.None?
    else
      && m.Some? && (m.value in values || m.value == 0) && m.value >= 0
      && forall i :: 0 <= i < |values| ==> values[i] <= m.value
  }

  function Times(outcomes: seq<CaseOutcome>): seq<int> {
    seq(|outcomes|, i requires 0 <= i < |outcomes| => outcomes[i].timeMs)
  }

  function Memories(outcomes: seq<CaseOutcome>): seq<int> {
    seq(|outcomes|, i requires 0 <= i < |outcomes| => outcomes[i].memoryKb)
  }

  /** One outcome for each of the first n tests, in their order. */
  ghost predicate Lists(tests: seq<JudgeTest>, answers: seq<Option<RunResult>>, checker: Checker, capture: bool,
                        outcomes: seq<CaseOutcome>, n: nat)
    requires n <= |tests| == |answers|
  {
    && |outcomes| == n
    && forall i :: 0 <= i < n ==>
         answers[i].Some? && outcomes[i] == OutcomeOf(i + 1, tests[i], answers[i].value, checker, capture)
  }

  /** The report after the first n tests, in the order they were run. */
  ghost predicate ReportsFirst(tests: seq<JudgeTest>, answers: seq<Option<RunResult>>, checker: Checker,
                               capture: bool, r: JudgeReport, n: nat)
    requires n <= |tests| == |answers|
  {
    && r.total == |tests| && r.compileOutput.None?
    && Lists(tests, answers, checker, capture, r.outcomes, n)
    && (r.verdict, r.message) == Decided(tests, answers, checker, n)
    && r.passed == Accepted(r.outcomes)
    && IsLargest(r.runtimeMs, Times(r.outcomes)) && IsLargest(r.memoryKb, Memories(r.outcomes))
  }

  /** The first failure among the first n tests decides. */
  ghost function Decided(tests: seq<JudgeTest>, answers: seq<Option<RunResult>>, checker: Checker, n: nat)
    : (Verdict, Option<Termination>)
    requires n <= |tests| == |answers|
  {
    var f := FirstFailure(tests, answers, checker, 0);
    if f < n && answers[f].Some? then VerdictFor(answers[f].value, tests[f].expected, checker) else (ACCEPTED, None)
  }

  ghost predicate IsReport(tests: seq<JudgeTest>, answers: seq<Option<RunResult>>, checker: Checker, stop: bool,
                           capture: bool, r: JudgeReport)
    requires |tests| == |answers|
  {
    ReportsFirst(tests, answers, checker, capture, r, Reached(tests, answers, checker, stop))
  }

  /** `max(m or 0, x)`. */
  function Raise(m: Option<int>, x: int): Option<int> {
    Some(Max(if m.Some? then m.value else 0, x))
  }

  lemma RaiseIsLargest(m: Option<int>, values: seq<int>, x: int)
    requires IsLargest(m, values)
    ensures IsLargest(Raise(m, x), values + [x])
  {
    var r := Raise(m, x).value;
    assert (values + [x])[|values|] == x;
    if m.Some? && r == m.value && r in values {
      var i :| 0 <= i < |values| && values[i] == r;
      assert (values + [x])[i] == r;
    }
  }

  /** One turn of the loop. */
  function Next(r: JudgeReport, test: JudgeTest, result: RunResult, checker: Checker, capture: bool): JudgeReport {
    var (verdict, message) := VerdictFor(result, test.expected, checker);
    var decides := verdict != ACCEPTED && r.verdict == ACCEPTED;
    r.(outcomes := r.outcomes + [OutcomeOf(|r.outcomes| + 1, test, result, checker, capture)],
       runtimeMs := Raise(r.runtimeMs, result.timeMs),
       memoryKb := Raise(r.memoryKb, result.memoryKb),
       passed := r.passed + (if verdict == ACCEPTED then 1 else 0),
       verdict := if decides then verdict else r.verdict,
       message := if decides then message else r.message)
  }

  lemma Numbers(outcomes: seq<CaseOutcome>, o: CaseOutcome)
    ensures Accepted(outcomes + [o]) == Accepted(outcomes) + if o.verdict == ACCEPTED then 1 else 0
    ensures Times(outcomes + [o]) == Times(outcomes) + [o.timeMs]
    ensures Memories(outcomes + [o]) == Memories(outcomes) + [o.memoryKb]
  {
    assert (outcomes + [o])[..|outcomes|] == outcomes;
  }

  lemma DecidedNext(tests: seq<JudgeTest>, answers: seq<Option<RunResult>>, checker: Checker, n: nat)
    requires n < |tests| == |answers| && forall i :: 0 <= i <= n ==> answers[i].Some?
    ensures var (here, before) :=
        (VerdictFor(answers[n].value, tests[n].expected, checker), Decided(tests, answers, checker, n));
      Decided(tests, answers, checker, n + 1) == if here.0 != ACCEPTED && before.0 == ACCEPTED then here else before
  {
    hide FirstFailure, VerdictFor;
  }

  lemma NextNumbers(r: JudgeReport, test: JudgeTest, result: RunResult, checker: Checker, capture: bool)
    requires r.passed == Accepted(r.outcomes)
    requires IsLargest(r.runtimeMs, Times(r.outcomes)) && IsLargest(r.memoryKb, Memories(r.outcomes))
    ensures var q := Next(r, test, result, checker, capture);
      && q.outcomes == r.outcomes + [OutcomeOf(|r.outcomes| + 1, test, result, checker, capture)]
      && q.passed == Accepted(q.outcomes)
      && IsLargest(q.runtimeMs, Times(q.outcomes)) && IsLargest(q.memoryKb, Memories(q.outcomes))
  {
    Numbers(r.outcomes, OutcomeOf(|r.outcomes| + 1, test, result, checker, capture));
    RaiseIsLargest(r.runtimeMs, Times(r.outcomes), result.timeMs);
    RaiseIsLargest(r.memoryKb, Memories(r.outcomes), result.memoryKb);
    hide VerdictFor, Accepted, IsLargest, Times, Memories, Raise;
  }

  lemma NextDecides(tests: seq<JudgeTest>, answers: seq<Option<RunResult>>, checker: Checker, capture: bool,
                    r: JudgeReport, n: nat)
    requires n < |tests| == |answers| && forall i :: 0 <= i <= n ==> answers[i].Some?
    requires (r.verdict, r.message) == Decided(tests, answers, checker, n)
    ensures var q := Next(r, tests[n], answers[n].value, checker, capture);
      (q.verdict, q.message) == Decided(tests, answers, checker, n + 1)
  {
    DecidedNext(tests, answers, checker, n);
    hide Decided, VerdictFor, Raise, OutcomeOf;
  }

  lemma NextLists(tests: seq<JudgeTest>, answers: seq<Option<RunResult>>, checker: Checker, capture: bool,
                  r: JudgeReport, n: nat)
    requires n < |tests| == |answers| && Lists(tests, answers, checker, capture, r.outcomes, n) && answers[n].Some?
    ensures var q := Next(r, tests[n], answers[n].value, checker, capture);
      && Lists(tests, answers, checker, capture, q.outcomes, n + 1)
      && q.total == r.total && q.compileOutput == r.compileOutput
  {
    hide OutcomeOf, VerdictFor, Raise;
  }

  lemma Extend(tests: seq<JudgeTest>, answers: seq<Option<RunResult>>, checker: Checker, capture: bool,
               r: JudgeReport, n: nat)
    requires n < |tests| == |answers| && ReportsFirst(tests, answers, checker, capture, r, n) && answers[n].Some?
    ensures ReportsFirst(tests, answers, checker, capture, Next(r, tests[n], answers[n].value, checker, capture), n + 1)
  {
    NextLists(tests, answers, checker, capture, r, n);
    NextNumbers(r, tests[n], answers[n].value, checker, capture);
    NextDecides(tests, answers, checker, capture, r, n);
    hide Next, Lists, Decided, Accepted, IsLargest, Times, Memories, OutcomeOf;
  }

  lemma StartReport(tests: seq<JudgeTest>, answers: seq<Option<RunResult>>, checker: Checker, capture: bool)
    requires |tests| == |answers|
    ensures ReportsFirst(tests, answers, checker, capture,
                         JudgeReport(ACCEPTED, |tests|, 0, None, None, None, None, []), 0)
  {
  }

  predicate AllSome(answers: seq<Option<RunResult>>, n: nat) {
    n <= |answers| && forall i :: 0 <= i < n ==> answers[i].Some?
  }

  /** Where the loop ends when every earlier test has passed, or when failures do not end it. */
  lemma EndsAt(tests: seq<JudgeTest>, answers: seq<Option<RunResult>>, checker: Checker, stop: bool, n: nat)
    requires n < |tests| == |answers|
    requires stop ==> n <= FirstFailure(tests, answers, checker, 0)
    ensures n < Reached(tests, answers, checker, stop)
    ensures answers[n].None? ==> !AllSome(answers, Reached(tests, answers, checker, stop))
    ensures stop && Passes(tests[n], answers[n], checker) ==> n + 1 <= FirstFailure(tests, answers, checker, 0)
    ensures stop && !Passes(tests[n], answers[n], checker) ==> Reached(tests, answers, checker, stop) == n + 1
  {
  }

  lemma Turn(answers: seq<Option<RunResult>>, test: JudgeTest, checker: Checker, n: nat)
    requires n < |answers| && AllSome(answers, n) && answers[n].Some?
    ensures AllSome(answers, n + 1)
    ensures Passes(test, answers[n], checker) <==> VerdictFor(answers[n].value, test.expected, checker).0 == ACCEPTED
  {
  }

  lemma Ends(tests: seq<JudgeTest>, answers: seq<Option<RunResult>>, checker: Checker, stop: bool)
    requires |tests| == |answers|
    requires stop ==> |tests| <= FirstFailure(tests, answers, checker, 0)
    ensures Reached(tests, answers, checker, stop) == |tests|
  {
  }

  /** The loop over the ordered tests, given what the sandbox answers at each turn. */
  method RunTests(ordered: seq<JudgeTest>, answers: seq<Option<RunResult>>, checker: Checker, stop: bool, capture: bool)
    returns (judged: Judged)
    requires |answers| == |ordered|
    ensures !judged.TooManyTests?
    ensures judged.SandboxError? <==>
      !AllSome(answers, Reached(ordered, answers, checker, stop))
    ensures judged.Reported? ==> IsReport(ordered, answers, checker, stop, capture, judged.report)
  {
    var verdict, message, passed := ACCEPTED, None, 0;
    var runtimeMs, memoryKb, outcomes := None, None, [];
    StartReport(ordered, answers, checker, capture);
    hide FirstFailure, Reached, VerdictFor, ReportsFirst, OutcomeOf, Raise, AllSome, Passes;
    for n := 0 to |ordered|
      invariant stop ==> n <= FirstFailure(ordered, answers, checker, 0)
      invariant AllSome(answers, n) && |outcomes| == n
      invariant ReportsFirst(ordered, answers, checker, capture,
                             JudgeReport(verdict, |ordered|, passed, None, message, runtimeMs, memoryKb, outcomes), n)
    {
      EndsAt(ordered, answers, checker, stop, n);
      if answers[n].None? { return SandboxError; }
      ghost var report := JudgeReport(verdict, |ordered|, passed, None, message, runtimeMs, memoryKb, outcomes);
      Extend(ordered, answers, checker, capture, report, n);
      var test, result := ordered[n], answers[n].value;
      var (here, why) := VerdictFor(result, test.expected, checker);
      Turn(answers, test, checker, n);
      outcomes := outcomes + [OutcomeOf(n + 1, test, result, checker, capture)];
      runtimeMs, memoryKb := Raise(runtimeMs, result.timeMs), Raise(memoryKb, result.memoryKb);
      if here == ACCEPTED {
        passed := passed + 1;
      } else if verdict == ACCEPTED {
        verdict, message := here, why;
      }
      if here != ACCEPTED && stop {
        return Reported(JudgeReport(verdict, |ordered|, passed, None, message, runtimeMs, memoryKb, outcomes));
      }
    }
    Ends(ordered, answers, checker, stop);
    return Reported(JudgeReport(verdict, |ordered|, passed, None, message, runtimeMs, memoryKb, outcomes));
  }

  /** `judge_tests`. */
  method JudgeTests(compiled: Option<CompileResult>, answers: seq<Option<RunResult>>, tests: seq<JudgeTest>,
                    checker: Checker,
                    maxTests: nat, stop: bool, capture: bool)
    returns (judged: Judged)
    requires |answers| == |tests|
    ensures judged.TooManyTests? <==> |tests| > maxTests
    ensures judged.SandboxError? <==>
      |tests| <= maxTests
      && (compiled.None?
          || (compiled.value.ok && !AllSome(answers, Reached(OrderTests(tests), answers, checker, stop))))
    ensures judged.Reported? && !compiled.value.ok ==>
      judged.report == JudgeReport(COMPILATION_ERROR, |tests|, 0, Some(compiled.value.output), None, None, None, [])
    ensures judged.Reported? && compiled.value.ok ==>
      IsReport(OrderTests(tests), answers, checker, stop, capture, judged.report)
  {
    hide OrderTests, IsReport, Reached;
    var ordered := OrderTests(tests);
    if |ordered| > maxTests { return TooManyTests; }
    if compiled.None? { return SandboxError; }
    if !compiled.value.ok {
      return Reported(JudgeReport(COMPILATION_ERROR, |ordered|, 0, Some(compiled.value.output), None, None, None, []));
    }
    judged := RunTests(ordered, answers, checker, stop, capture);
  }

  // ----- what a report means -----

  lemma {:induction false} AcceptedCounts(outcomes: seq<CaseOutcome>)
    ensures Accepted(outcomes) == |outcomes| <==> forall i :: 0 <= i < |outcomes| ==> outcomes[i].verdict == ACCEPTED
  {
    if outcomes != [] {
      var front := outcomes[..|outcomes| - 1];
      AcceptedCounts(front);
      assert forall i :: 0 <= i < |front| ==> outcomes[i] == front[i];
    }
  }

  /** A report accepts exactly if every test passes, and then all of them were run; otherwise the first test that does
      not pass gives the verdict. Nothing about the sandbox ever becomes a verdict. */
  lemma VerdictIsFirstFailure(tests: seq<JudgeTest>, answers: seq<Option<RunResult>>, checker: Checker, stop: bool,
                              capture: bool, r: JudgeReport)
    requires |tests| == |answers| && IsReport(tests, answers, checker, stop, capture, r)
    ensures r.verdict == ACCEPTED <==> forall i :: 0 <= i < |tests| ==> Passes(tests[i], answers[i], checker)
    ensures r.verdict == ACCEPTED <==> r.passed == r.total
    ensures r.verdict != ACCEPTED ==>
      exists f :: 0 <= f < |r.outcomes| && r.verdict == r.outcomes[f].verdict
        && forall i :: 0 <= i < f ==> r.outcomes[i].verdict == ACCEPTED
    ensures r.verdict != SYSTEM_ERROR && r.verdict != COMPILATION_ERROR
  {
    var f, n := FirstFailure(tests, answers, checker, 0), Reached(tests, answers, checker, stop);
    assert Lists(tests, answers, checker, capture, r.outcomes, n);
    AcceptedCounts(r.outcomes);
    hide FirstFailure, VerdictFor, Accepted;
    forall i | 0 <= i < n ensures r.outcomes[i].verdict == ACCEPTED <==> Passes(tests[i], answers[i], checker) {}
    if f < n {
      assert r.verdict == r.outcomes[f].verdict;
      VerdictsOfOneRun(answers[f].value, tests[f].expected, checker);
    }
  }

  /** What a report shows of the tests that were run, in their order: of every test the verdict, time and memory of its
      run; of a visible one also how a run-time error came about; and the texts, if they were asked for. */
  lemma OutcomesShow(tests: seq<JudgeTest>, answers: seq<Option<RunResult>>, checker: Checker, stop: bool,
                     capture: bool, r: JudgeReport, i: nat)
    requires |tests| == |answers| && IsReport(tests, answers, checker, stop, capture, r) && i < |r.outcomes|
    ensures i < |tests| && answers[i].Some?
    ensures var (o, test, run) := (r.outcomes[i], tests[i], answers[i].value);
      && o.position == i + 1 && o.testId == test.id && o.visible == test.visible
      && o.timeMs == run.timeMs && o.memoryKb == run.memoryKb
      && o.verdict == VerdictFor(run, test.expected, checker).0
      && (o.message.Some? <==> test.visible && o.verdict == RUNTIME_ERROR)
      && (o.message.Some? ==> o.message == Some(DescribeTermination(run)))
      && (o.captured.Some? <==> test.visible && capture)
      && (o.captured.Some? ==> o.captured.value == Captured(test.input, test.expected, run.stdout, run.stderr))
  {
    hide FirstFailure, Accepted, IsLargest, Times, Memories;
  }

  /** How many tests are run: all of them, unless the loop is to stop at the first failure, which then is the last
      one. */
  lemma HowFar(tests: seq<JudgeTest>, answers: seq<Option<RunResult>>, checker: Checker, stop: bool, capture: bool,
               r: JudgeReport)
    requires |tests| == |answers| && IsReport(tests, answers, checker, stop, capture, r)
    ensures |r.outcomes| <= r.total == |tests|
    ensures stop ==> forall i :: 0 <= i < |r.outcomes| - 1 ==> r.outcomes[i].verdict == ACCEPTED
    ensures |r.outcomes| < |tests| ==> stop && |r.outcomes| > 0 && r.outcomes[|r.outcomes| - 1].verdict != ACCEPTED
  {
    var n := Reached(tests, answers, checker, stop);
    hide FirstFailure, Accepted, IsLargest, Times, Memories, VerdictFor;
    forall i | 0 <= i < n ensures r.outcomes[i].verdict == ACCEPTED <==> Passes(tests[i], answers[i], checker) {
      assert r.outcomes[i] == OutcomeOf(i + 1, tests[i], answers[i].value, checker, capture);
    }
  }

  /** The time and the memory of a report are the largest of its outcomes, and there are none if nothing was run. */
  lemma LargestOfOutcomes(tests: seq<JudgeTest>, answers: seq<Option<RunResult>>, checker: Checker, stop: bool,
                          capture: bool, r: JudgeReport)
    requires |tests| == |answers| && IsReport(tests, answers, checker, stop, capture, r)
    ensures (r.outcomes == [] <==> r.runtimeMs.None?) && (r.outcomes == [] <==> r.memoryKb.None?)
    ensures forall o :: o in r.outcomes ==> o.timeMs <= r.runtimeMs.value && o.memoryKb <= r.memoryKb.value
    ensures r.outcomes != [] ==>
      && (r.runtimeMs == Some(0) || exists o :: o in r.outcomes && r.runtimeMs == Some(o.timeMs))
      && (r.memoryKb == Some(0) || exists o :: o in r.outcomes && r.memoryKb == Some(o.memoryKb))
  {
    var (outcomes, times, memories) := (r.outcomes, Times(r.outcomes), Memories(r.outcomes));
    hide Lists, FirstFailure, Accepted, Decided, Reached;
    if outcomes != [] {
      assert times[0] == outcomes[0].timeMs && memories[0] == outcomes[0].memoryKb;
      forall o | o in outcomes ensures o.timeMs <= r.runtimeMs.value && o.memoryKb <= r.memoryKb.value {
        var i :| 0 <= i < |outcomes| && outcomes[i] == o;
        assert times[i] <= r.runtimeMs.value && memories[i] <= r.memoryKb.value;
      }
      if r.runtimeMs.value in times {
        var i :| 0 <= i < |times| && times[i] == r.runtimeMs.value;
        assert outcomes[i] in outcomes;
      }
      if r.memoryKb.value in memories {
        var i :| 0 <= i < |memories| && memories[i] == r.memoryKb.value;
        assert outcomes[i] in outcomes;
      }
    }
  }

  /** The number of passed tests is the number of outcomes that are ACCEPTED. */
  lemma {:induction false} PassedIsCount(outcomes: seq<CaseOutcome>)
    ensures Accepted(outcomes) == |PassedAt(outcomes)|
  {
    if outcomes == [] {
      assert PassedAt(outcomes) == {};
    } else {
      var (front, last) := (outcomes[..|outcomes| - 1], |outcomes| - 1);
      PassedIsCount(front);
      assert PassedAt(outcomes) == PassedAt(front) + if outcomes[last].verdict == ACCEPTED then {last} else {};
    }
  }

  ghost function PassedAt(outcomes: seq<CaseOutcome>): set<nat> {
    set i: nat | i < |outcomes| && outcomes[i].verdict == ACCEPTED
  }

  /** A run is never blamed for the sandbox or the compiler, and only a run-time error has a message. */
  lemma VerdictsOfOneRun(r: RunResult, expected: string, checker: Checker)
    ensures VerdictFor(r, expected, checker).0 !in {SYSTEM_ERROR, COMPILATION_ERROR}
    ensures VerdictFor(r, expected, checker).1.Some? <==> VerdictFor(r, expected, checker).0 == RUNTIME_ERROR
  {
  }

  /** Stopping at the first failure changes neither the verdict nor the outcomes before it. */
  lemma StoppingKeepsVerdict(tests: seq<JudgeTest>, answers: seq<Option<RunResult>>, checker: Checker, capture: bool,
                             r: JudgeReport, q: JudgeReport)
    requires |tests| == |answers|
    requires IsReport(tests, answers, checker, true, capture, r) && IsReport(tests, answers, checker, false, capture, q)
    ensures r.verdict == q.verdict && r.message == q.message && r.outcomes <= q.outcomes
  {
    hide FirstFailure, VerdictFor, OutcomeOf;
  }

  // ----- hidden tests -----

  /** Two answers that differ at most in what a hidden test's program wrote and how exactly it ended. */
  predicate Alike(test: JudgeTest, a: Option<RunResult>, b: Option<RunResult>, checker: Checker) {
    a == b
    || (&& a.Some? && b.Some? && !test.visible
        && VerdictFor(a.value, test.expected, checker).0 == VerdictFor(b.value, test.expected, checker).0
        && a.value.timeMs == b.value.timeMs && a.value.memoryKb == b.value.memoryKb)
  }

  ghost predicate AllAlike(tests: seq<JudgeTest>, a: seq<Option<RunResult>>, b: seq<Option<RunResult>>,
                           checker: Checker)
  {
    && |tests| == |a| == |b|
    && forall k :: 0 <= k < |tests| ==> Alike(tests[k], a[k], b[k], checker)
  }

  lemma AlikeOutcomes(position: nat, test: JudgeTest, a: RunResult, b: RunResult, checker: Checker, capture: bool)
    requires Alike(test, Some(a), Some(b), checker)
    ensures OutcomeOf(position, test, a, checker, capture) == OutcomeOf(position, test, b, checker, capture)
  {
  }

  lemma {:induction false} AlikeFailures(tests: seq<JudgeTest>, a: seq<Option<RunResult>>, b: seq<Option<RunResult>>,
                                         checker: Checker, i: nat)
    requires AllAlike(tests, a, b, checker) && i <= |tests|
    ensures FirstFailure(tests, a, checker, i) == FirstFailure(tests, b, checker, i)
    decreases |tests| - i
  {
    if i < |tests| {
      assert Alike(tests[i], a[i], b[i], checker);
      hide VerdictFor;
      AlikeFailures(tests, a, b, checker, i + 1);
    }
  }

  lemma LargestIsUnique(m: Option<int>, k: Option<int>, values: seq<int>)
    requires IsLargest(m, values) && IsLargest(k, values)
    ensures m == k
  {
  }

  lemma AlikeLists(tests: seq<JudgeTest>, a: seq<Option<RunResult>>, b: seq<Option<RunResult>>, checker: Checker,
                   capture: bool, o: seq<CaseOutcome>, p: seq<CaseOutcome>, n: nat)
    requires AllAlike(tests, a, b, checker) && n <= |tests|
    requires Lists(tests, a, checker, capture, o, n) && Lists(tests, b, checker, capture, p, n)
    ensures o == p
  {
    hide Alike, OutcomeOf;
    forall i | 0 <= i < n ensures o[i] == p[i] {
      AlikeOutcomes(i + 1, tests[i], a[i].value, b[i].value, checker, capture);
    }
  }

  lemma AlikeDecisions(tests: seq<JudgeTest>, a: seq<Option<RunResult>>, b: seq<Option<RunResult>>, checker: Checker,
                       n: nat)
    requires AllAlike(tests, a, b, checker) && n <= |tests|
    ensures var (f, p, q) :=
        (FirstFailure(tests, a, checker, 0), Decided(tests, a, checker, n), Decided(tests, b, checker, n));
      && p.0 == q.0
      && (p.1 != q.1 <==>
           f < n && !tests[f].visible && p.0 == RUNTIME_ERROR && a[f].Some? && b[f].Some?
           && DescribeTermination(a[f].value) != DescribeTermination(b[f].value))
  {
    AlikeFailures(tests, a, b, checker, 0);
    var f := FirstFailure(tests, a, checker, 0);
    hide FirstFailure, DescribeTermination;
    if f < n { assert Alike(tests[f], a[f], b[f], checker); }
  }

  /** Of a hidden test a report tells the verdict, the time and the memory, and nothing else, with one exception: if the
      first failure is a hidden test with a run-time error, the report's message says how it ended. */
  lemma HiddenTestsStayHidden(tests: seq<JudgeTest>, a: seq<Option<RunResult>>, b: seq<Option<RunResult>>,
                              checker: Checker, stop: bool, capture: bool, r: JudgeReport, q: JudgeReport)
    requires AllAlike(tests, a, b, checker)
    requires IsReport(tests, a, checker, stop, capture, r) && IsReport(tests, b, checker, stop, capture, q)
    ensures r.(message := None) == q.(message := None)
    ensures var f := FirstFailure(tests, a, checker, 0);
      r.message != q.message <==>
        f < |tests| && !tests[f].visible && r.verdict == RUNTIME_ERROR
        && DescribeTermination(a[f].value) != DescribeTermination(b[f].value)
  {
    AlikeFailures(tests, a, b, checker, 0);
    var n := Reached(tests, a, checker, stop);
    AlikeLists(tests, a, b, checker, capture, r.outcomes, q.outcomes, n);
    AlikeDecisions(tests, a, b, checker, n);
    LargestIsUnique(r.runtimeMs, q.runtimeMs, Times(r.outcomes));
    LargestIsUnique(r.memoryKb, q.memoryKb, Memories(r.outcomes));
    hide Alike, FirstFailure, Decided, Lists, IsLargest, Times, Memories, Accepted, DescribeTermination;
  }

  /** The first failure was reached and is a hidden test with a run-time error. */
  ghost predicate HiddenCrash(tests: seq<JudgeTest>, a: seq<Option<RunResult>>, checker: Checker, r: JudgeReport)
    requires |tests| == |a|
  {
    var f := FirstFailure(tests, a, checker, 0);
    f < |r.outcomes| && f < |tests| && !tests[f].visible && r.verdict == RUNTIME_ERROR
  }

  /** Another ending of the same verdict, with another message. */
  function OtherEnding(r: RunResult): RunResult {
    r.(status := SIGNALED, signal := Some(if DescribeTermination(r) == TerminatedBy(1) then 2 else 1))
  }

  lemma OtherMessage(r: RunResult, expected: string, checker: Checker)
    requires VerdictFor(r, expected, checker).0 == RUNTIME_ERROR
    ensures var (v, w) := (VerdictFor(r, expected, checker), VerdictFor(OtherEnding(r), expected, checker));
      w.0 == RUNTIME_ERROR && w.1 != v.1
  {
  }

  /** The report on the same runs, but for the message. */
  lemma SameReport(tests: seq<JudgeTest>, a: seq<Option<RunResult>>, b: seq<Option<RunResult>>, checker: Checker,
                   stop: bool, capture: bool, r: JudgeReport)
    requires AllAlike(tests, a, b, checker) && IsReport(tests, a, checker, stop, capture, r)
    requires AllSome(b, |r.outcomes|)
    ensures IsReport(tests, b, checker, stop, capture,
                     r.(message := Decided(tests, b, checker, Reached(tests, b, checker, stop)).1))
  {
    var n := Reached(tests, a, checker, stop);
    AlikeFailures(tests, a, b, checker, 0);
    AlikeDecisions(tests, a, b, checker, n);
    hide FirstFailure, Decided, Accepted, IsLargest, Times, Memories, OutcomeOf, Alike;
    forall i | 0 <= i < n
      ensures r.outcomes[i] == OutcomeOf(i + 1, tests[i], b[i].value, checker, capture)
    {
      AlikeOutcomes(i + 1, tests[i], a[i].value, b[i].value, checker, capture);
    }
  }

  /** What hidden programs do can change the message, and nothing else, of exactly those reports whose first failure is
      a hidden test with a run-time error. */
  lemma MessageDependsIff(tests: seq<JudgeTest>, a: seq<Option<RunResult>>, checker: Checker, stop: bool, capture: bool,
                          r: JudgeReport)
    requires |tests| == |a| && IsReport(tests, a, checker, stop, capture, r)
    ensures (exists b, q :: MessageDiffers(tests, a, b, checker, stop, capture, r, q))
       <==> HiddenCrash(tests, a, checker, r)
  {
    if b, q :| MessageDiffers(tests, a, b, checker, stop, capture, r, q) {
      HiddenTestsStayHidden(tests, a, b, checker, stop, capture, r, q);
    }
    if HiddenCrash(tests, a, checker, r) { CrashTells(tests, a, checker, stop, capture, r); }
  }

  /** Two reports on alike runs with different messages. */
  ghost predicate MessageDiffers(tests: seq<JudgeTest>, a: seq<Option<RunResult>>, b: seq<Option<RunResult>>,
                                 checker: Checker, stop: bool, capture: bool, r: JudgeReport, q: JudgeReport)
    requires |tests| == |a|
  {
    AllAlike(tests, a, b, checker) && IsReport(tests, b, checker, stop, capture, q) && q.message != r.message
  }

  lemma CrashTells(tests: seq<JudgeTest>, a: seq<Option<RunResult>>, checker: Checker, stop: bool, capture: bool,
                   r: JudgeReport)
    requires |tests| == |a| && IsReport(tests, a, checker, stop, capture, r) && HiddenCrash(tests, a, checker, r)
    ensures exists b, q :: MessageDiffers(tests, a, b, checker, stop, capture, r, q)
  {
    var f := FirstFailure(tests, a, checker, 0);
    assert a[f].Some? && r.verdict == VerdictFor(a[f].value, tests[f].expected, checker).0;
    OtherMessage(a[f].value, tests[f].expected, checker);
    var b := a[f := Some(OtherEnding(a[f].value))];
    assert AllAlike(tests, a, b, checker);
    SameReport(tests, a, b, checker, stop, capture, r);
    AlikeFailures(tests, a, b, checker, 0);
    hide FirstFailure, VerdictFor, OtherEnding, ReportsFirst;
    var q := r.(message := Decided(tests, b, checker, Reached(tests, b, checker, stop)).1);
    assert MessageDiffers(tests, a, b, checker, stop, capture, r, q);
  }

  const HIDDEN_TEST := JudgeTest("", "", false, None)

  /** The run of a program that exits with a code, and the report on it. */
  function Exits(code: int): RunResult {
    RunResult(EXITED, Some(code), None, 0, 0, "", "")
  }

  function ExitReport(code: int): JudgeReport {
    JudgeReport(RUNTIME_ERROR, 1, 0, None, Some(ExitedWith(Some(code))), Some(0), Some(0),
                [CaseOutcome(1, None, false, RUNTIME_ERROR, 0, 0, None, None)])
  }

  lemma OneHiddenTest(code: int, checker: Checker)
    requires code != 0
    ensures IsReport([HIDDEN_TEST], [Some(Exits(code))], checker, true, false, ExitReport(code))
    ensures VerdictFor(Exits(code), HIDDEN_TEST.expected, checker).0 == RUNTIME_ERROR
  {
    var (tests, answers) := ([HIDDEN_TEST], [Some(Exits(code))]);
    assert VerdictFor(Exits(code), "", checker) == (RUNTIME_ERROR, Some(ExitedWith(Some(code))));
    assert !Passes(tests[0], answers[0], checker);
    assert FirstFailure(tests, answers, checker, 0) == 0;
    var o := OutcomeOf(1, tests[0], Exits(code), checker, false);
    assert Accepted([o]) == 0 by { assert [o][..0] == []; }
    assert Times([o]) == [0] && Memories([o]) == [0];
  }

  /** A hidden program that exits with 2 instead of 1 changes the message, and only the message. */
  lemma HiddenMessageWitness(checker: Checker)
    ensures IsReport([HIDDEN_TEST], [Some(Exits(1))], checker, true, false, ExitReport(1))
    ensures MessageDiffers([HIDDEN_TEST], [Some(Exits(1))], [Some(Exits(2))], checker, true, false,
                           ExitReport(1), ExitReport(2))
    ensures ExitReport(1).message == Some(ExitedWith(Some(1))) && ExitReport(2).message == Some(ExitedWith(Some(2)))
  {
    OneHiddenTest(1, checker);
    OneHiddenTest(2, checker);
    hide VerdictFor, ReportsFirst;
  }
}
