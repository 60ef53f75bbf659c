/** UPDATE, else INSERT, else UPDATE again: the upsert that the judge's progress and streak rows share, statement by
    statement and interleaved in every way. A statement is one atomic step; an INSERT takes effect when its transaction
    commits, which is when a second INSERT of the same row is refused. */
module Upserts {
  import opened Wrappers
  import SetFacts

  /** Where a caller stands: before the UPDATE, before the INSERT, before the fallback UPDATE, finished. */
  datatype Phase = Updating | Inserting | Retrying | Done

  /** What a call writes if there is no row, and if there is one. */
  datatype Ops<!C, !R> = Ops(insert: C -> R, update: (C, R) -> R)

  /** The shared row, the callers, and the calls that have written, in the order they did. */
  datatype State<R> = State(row: Option<R>, phases: seq<Phase>, log: seq<nat>)

  function Started<C, R>(calls: seq<C>, row: Option<R>): State<R> {
    State(row, seq(|calls|, _ => Updating), [])
  }

  /** Caller w executes its next statement. An UPDATE that matches no row writes nothing. */
  function Step<C, R>(ops: Ops<C, R>, calls: seq<C>, s: State<R>, w: nat): State<R>
    requires w < |calls| == |s.phases|
  {
    match s.phases[w]
    case Updating =>
      if s.row.Some? then Written(s, w, ops.update(calls[w], s.row.value)) else s.(phases := s.phases[w := Inserting])
    case Inserting =>
      if s.row.None? then Written(s, w, ops.insert(calls[w])) else s.(phases := s.phases[w := Retrying])
    case Retrying =>
      if s.row.Some? then Written(s, w, ops.update(calls[w], s.row.value)) else s.(phases := s.phases[w := Done])
    case Done => s
  }

  function Written<R>(s: State<R>, w: nat, row: R): State<R>
    requires w < |s.phases|
  {
    State(Some(row), s.phases[w := Done], s.log + [w])
  }

  function Run<C, R>(ops: Ops<C, R>, calls: seq<C>, s: State<R>, schedule: seq<nat>): (t: State<R>)
    requires |s.phases| == |calls| && forall k :: 0 <= k < |schedule| ==> schedule[k] < |calls|
    ensures |t.phases| == |calls|
    decreases |schedule|
  {
    if schedule == [] then s
    else
      var last := |schedule| - 1;
      Step(ops, calls, Run(ops, calls, s, schedule[..last]), schedule[last])
  }

  /** One call without interference. */
  function Upserted<C, R>(ops: Ops<C, R>, call: C, row: Option<R>): R {
    match row
    case None => ops.insert(call)
    case Some(r) => ops.update(call, r)
  }

  /** The calls one after the other. */
  function InTurn<C, R>(ops: Ops<C, R>, calls: seq<C>, row: Option<R>): Option<R> {
    if calls == [] then row
    else Some(Upserted(ops, calls[|calls| - 1], InTurn(ops, calls[..|calls| - 1], row)))
  }

  function Picked<C>(calls: seq<C>, order: seq<nat>): (r: seq<C>)
    requires forall k :: 0 <= k < |order| ==> order[k] < |calls|
    ensures |r| == |order| && forall k :: 0 <= k < |r| ==> r[k] == calls[order[k]]
  {
    seq(|order|, k requires 0 <= k < |order| => calls[order[k]])
  }

  function Finished(phases: seq<Phase>): (n: nat)
    ensures n <= |phases|
  {
    if phases == [] then 0 else Finished(phases[..|phases| - 1]) + if phases[|phases| - 1] == Done then 1 else 0
  }

  lemma {:induction false} FinishedNext(phases: seq<Phase>, w: nat, p: Phase)
    requires w < |phases| && phases[w] != Done
    ensures Finished(phases[w := p]) == Finished(phases) + if p == Done then 1 else 0
  {
    var last := |phases| - 1;
    if w < last {
      FinishedNext(phases[..last], w, p);
      assert phases[w := p][..last] == phases[..last][w := p];
    } else {
      assert phases[w := p][..last] == phases[..last];
    }
  }

  lemma {:induction false} AllFinished(phases: seq<Phase>)
    requires forall w :: 0 <= w < |phases| ==> phases[w] == Done
    ensures Finished(phases) == |phases|
  {
    if phases != [] { AllFinished(phases[..|phases| - 1]); }
  }

  /** No call has been lost or done twice, and the row is as if the calls in the log had been made in turn. */
  ghost predicate Serial<C, R>(ops: Ops<C, R>, calls: seq<C>, start: Option<R>, s: State<R>) {
    && |s.phases| == |calls|
    && (forall k :: 0 <= k < |s.log| ==> s.log[k] < |calls| && s.phases[s.log[k]] == Done)
    && (forall j, k :: 0 <= j < k < |s.log| ==> s.log[j] != s.log[k])
    && |s.log| == Finished(s.phases)
    && s.row == InTurn(ops, Picked(calls, s.log), start)
    && (s.row.None? ==> forall w :: 0 <= w < |s.phases| ==> s.phases[w] != Retrying)
  }

  lemma StepWrites<C, R>(ops: Ops<C, R>, calls: seq<C>, start: Option<R>, s: State<R>, w: nat)
    requires w < |calls| && Serial(ops, calls, start, s) && s.phases[w] != Done
    ensures Serial(ops, calls, start, Written(s, w, Upserted(ops, calls[w], s.row)))
  {
    var t := Written(s, w, Upserted(ops, calls[w], s.row));
    FinishedNext(s.phases, w, Done);
    assert Picked(calls, t.log)[..|s.log|] == Picked(calls, s.log);
  }

  lemma StepKeeps<C, R>(ops: Ops<C, R>, calls: seq<C>, start: Option<R>, s: State<R>, w: nat)
    requires w < |calls| && Serial(ops, calls, start, s)
    ensures Serial(ops, calls, start, Step(ops, calls, s, w))
  {
    if s.phases[w] != Done {
      StepWrites(ops, calls, start, s, w);
      FinishedNext(s.phases, w, Inserting);
      FinishedNext(s.phases, w, Retrying);
    }
  }

  /** Every interleaving of the statements leaves the row that the finished calls would leave one after the other, and
      no call finishes without having written. */
  lemma {:induction false} EveryRunIsSerial<C, R>(ops: Ops<C, R>, calls: seq<C>, start: Option<R>, schedule: seq<nat>)
    requires forall k :: 0 <= k < |schedule| ==> schedule[k] < |calls|
    ensures Serial(ops, calls, start, Run(ops, calls, Started(calls, start), schedule))
    decreases |schedule|
  {
    if schedule == [] {
      NoneFinished(Started(calls, start).phases);
    } else {
      var last := |schedule| - 1;
      EveryRunIsSerial(ops, calls, start, schedule[..last]);
      StepKeeps(ops, calls, start, Run(ops, calls, Started(calls, start), schedule[..last]), schedule[last]);
    }
  }

  lemma {:induction false} NoneFinished(phases: seq<Phase>)
    requires forall w :: 0 <= w < |phases| ==> phases[w] != Done
    ensures Finished(phases) == 0
  {
    if phases != [] { NoneFinished(phases[..|phases| - 1]); }
  }

  predicate AllDone<R>(s: State<R>) {
    forall w :: 0 <= w < |s.phases| ==> s.phases[w] == Done
  }

  /** How many statements a caller has left at most. */
  function Left(p: Phase): nat {
    match p
    case Updating => 3
    case Inserting => 2
    case Retrying => 1
    case Done => 0
  }

  /** Nobody waits for anybody: each statement brings its own caller nearer to the end, and leaves the others alone. */
  lemma StepAdvances<C, R>(ops: Ops<C, R>, calls: seq<C>, s: State<R>, w: nat)
    requires w < |calls| == |s.phases| && s.phases[w] != Done
    ensures var t := Step(ops, calls, s, w);
      Left(t.phases[w]) < Left(s.phases[w]) && forall v :: 0 <= v < |calls| && v != w ==> t.phases[v] == s.phases[v]
  {
  }

  /** The calls made in some order, each of them once. */
  ghost predicate IsOrder(order: seq<nat>, n: nat) {
    && |order| == n
    && (forall k :: 0 <= k < n ==> order[k] < n)
    && forall j, k :: 0 <= j < k < n ==> order[j] != order[k]
  }

  ghost function Elements(order: seq<nat>): set<nat> {
    set k | 0 <= k < |order| :: order[k]
  }

  lemma {:induction false} DistinctSize(order: seq<nat>)
    requires forall j, k :: 0 <= j < k < |order| ==> order[j] != order[k]
    ensures |Elements(order)| == |order|
  {
    if order != [] {
      var front, last := order[..|order| - 1], order[|order| - 1];
      DistinctSize(front);
      assert Elements(order) == Elements(front) + {last} by {
        forall x ensures x in Elements(order) <==> x in Elements(front) || x == last {
          if x in Elements(front) { var k :| 0 <= k < |front| && front[k] == x; assert order[k] == x; }
          if x in Elements(order) && x != last { var k :| 0 <= k < |order| && order[k] == x; assert front[k] == x; }
        }
      }
      assert last !in Elements(front);
    }
  }

  /** An order leaves no caller out. */
  lemma OrderHasAll(order: seq<nat>, n: nat, w: nat)
    requires IsOrder(order, n) && w < n
    ensures exists k :: 0 <= k < n && order[k] == w
  {
    DistinctSize(order);
    SetFacts.RangeSize(n);
    SetFacts.SubsetSize(Elements(order), SetFacts.Range(n));
    assert w in Elements(order);
  }

  /** When all callers have finished, the row is as if every call had been made once, in some order. */
  lemma NoCallIsLost<C, R>(ops: Ops<C, R>, calls: seq<C>, start: Option<R>, schedule: seq<nat>)
    requires forall k :: 0 <= k < |schedule| ==> schedule[k] < |calls|
    ensures var s := Run(ops, calls, Started(calls, start), schedule);
      AllDone(s) ==> IsOrder(s.log, |calls|) && s.row == InTurn(ops, Picked(calls, s.log), start)
  {
    EveryRunIsSerial(ops, calls, start, schedule);
    var s := Run(ops, calls, Started(calls, start), schedule);
    if AllDone(s) { AllFinished(s.phases); }
  }
}
