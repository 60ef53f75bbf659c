/** The supervisor inside the sandbox: it captures the child's output under a cap, decides when to kill the child, and
    classifies how the child ended. What the operating system reports is input. A byte is a character below 256. */
module Supervisor {
  import opened Wrappers

  type Bytes = seq<char>

  datatype RunStatus = EXITED | TIMEOUT | MEMORY | OUTPUT_LIMIT | SIGNALED

  datatype Limits = Limits(timeMs: int, wallMs: int, memoryMb: int, maxOutput: nat, maxStderr: nat)

  // ----- capturing -----

  datatype Stream = Stdout | Stderr

  /** One successful `os.read`. */
  datatype Chunk = Chunk(stream: Stream, data: Bytes)

  /** Everything read from one stream. */
  ghost function Written(chunks: seq<Chunk>, stream: Stream): Bytes {
    if chunks == [] then [] else
    var last := chunks[|chunks| - 1];
    Written(chunks[..|chunks| - 1], stream) + if last.stream == stream then last.data else []
  }

  lemma {:induction false} WrittenOfSum(a: seq<Chunk>, b: seq<Chunk>, stream: Stream)
    ensures Written(a + b, stream) == Written(a, stream) + Written(b, stream)
    decreases |b|
  {
    if b == [] {
      assert a + b == a;
    } else {
      assert (a + b)[..|a + b| - 1] == a + b[..|b| - 1];
      WrittenOfSum(a, b[..|b| - 1], stream);
    }
  }

  function First(n: nat, bytes: Bytes): Bytes {
    if |bytes| <= n then bytes else bytes[..n]
  }

  function Max(x: int, y: int): int {
    if x >= y then x else y
  }

  /** `pump` and the buffers it fills. */
  class Capture {
    const maxOutput: nat
    const maxStderr: nat
    var out: Bytes
    var err: Bytes
    var outOver: bool
    ghost var chunks: seq<Chunk>  // everything read so far

    /** However the output was cut into chunks, the buffers are its beginnings. */
    ghost predicate Valid()
      reads this
    {
      && out == First(maxOutput, Written(chunks, Stdout))
      && err == First(maxStderr, Written(chunks, Stderr))
      && (outOver <==> |Written(chunks, Stdout)| > maxOutput)
    }

    constructor (maxOutput: nat, maxStderr: nat)
      ensures Valid() && chunks == [] && this.maxOutput == maxOutput && this.maxStderr == maxStderr
    {
      this.maxOutput, this.maxStderr := maxOutput, maxStderr;
      out, err, outOver := [], [], false;
      chunks := [];
    }

    method Read(c: Chunk)
      requires Valid()
      modifies this
      ensures Valid() && chunks == old(chunks) + [c]
    {
      chunks := chunks + [c];
      assert chunks[..|chunks| - 1] == old(chunks);
      var data := c.data;
      if c.stream == Stdout {
        var room: int := maxOutput - |out|;
        out := out + First(Max(room, 0), data);
        outOver := outOver || |data| > room;
      } else {
        var room: int := maxStderr - |err|;
        err := err + First(Max(room, 0), data);
      }
    }

    method Pump(more: seq<Chunk>)
      requires Valid()
      modifies this
      ensures Valid() && chunks == old(chunks) + more
    {
      for i := 0 to |more|
        invariant Valid() && chunks == old(chunks) + more[..i]
      {
        Read(more[i]);
        assert more[..i + 1] == more[..i] + [more[i]];
      }
      assert more[..|more|] == more;
    }
  }

  // ----- deciding -----

  /** One turn of the poll loop while the child runs: what was read, then what /proc and the clock say. */
  datatype Poll = Poll(chunks: seq<Chunk>, cpuMs: Option<int>, rssKb: Option<int>, elapsedMs: int)

  /** The child is gone: what the last turn and the drain read, and the resource usage of the child. */
  datatype Ending = Ending(chunks: seq<Chunk>, drained: seq<Chunk>, code: int, cpuMs: int, wallMs: int, maxRssKb: int,
                           oom: bool)

  function LimitKb(l: Limits): int {
    l.memoryMb * 1024
  }

  function Judge(l: Limits, over: bool, p: Poll): Option<RunStatus> {
    if over then Some(OUTPUT_LIMIT)
    else if (p.cpuMs.Some? && p.cpuMs.value > l.timeMs) || p.elapsedMs > l.wallMs then Some(TIMEOUT)
    else if p.rssKb.Some? && p.rssKb.value > LimitKb(l) then Some(MEMORY)
    else None
  }

  ghost function Chunks(polls: seq<Poll>): seq<Chunk> {
    if polls == [] then [] else Chunks(polls[..|polls| - 1]) + polls[|polls| - 1].chunks
  }

  /** The output cap is exceeded by the end of turn i. */
  ghost predicate OverAt(l: Limits, polls: seq<Poll>, i: nat)
    requires i < |polls|
  {
    |Written(Chunks(polls[..i + 1]), Stdout)| > l.maxOutput
  }

  /** Turn i sees no limit broken. */
  ghost predicate QuietAt(l: Limits, polls: seq<Poll>, i: nat)
    requires i < |polls|
  {
    Judge(l, OverAt(l, polls, i), polls[i]).None?
  }

  /** The decision of the first n turns: the first limit seen broken, output before time before memory. */
  ghost function Decision(l: Limits, polls: seq<Poll>, n: nat): Option<RunStatus>
    requires n <= |polls|
  {
    if n == 0 then None
    else if Decision(l, polls, n - 1).Some? then Decision(l, polls, n - 1)
    else Judge(l, OverAt(l, polls, n - 1), polls[n - 1])
  }

  /** The largest resident size seen before a decision. */
  ghost function Peak(l: Limits, polls: seq<Poll>, n: nat): int
    requires n <= |polls|
  {
    if n == 0 then 0
    else if Decision(l, polls, n - 1).Some? then Peak(l, polls, n - 1)
    else Max(Peak(l, polls, n - 1), if polls[n - 1].rssKb.Some? then polls[n - 1].rssKb.value else 0)
  }

  const SIGKILL := 9
  const SIGXCPU := 24
  const SIGXFSZ := 25

  /** `classify`; the code is negative for a signal. */
  function Classify(killed: Option<RunStatus>, code: int, cpuMs: int, memoryKb: int, timeMs: int, limitKb: int,
                    oom: bool)
    : (RunStatus, Option<int>, Option<int>)
  {
    var exitCode := if code >= 0 then Some(code) else None;
    var sig := if code < 0 then Some(-code) else None;
    if killed.Some? then (killed.value, exitCode, sig)
    else if oom && sig == Some(SIGKILL) then (MEMORY, exitCode, sig)
    else if sig.Some? then
      if sig.value == SIGXCPU || cpuMs > timeMs then (TIMEOUT, exitCode, sig)
      else if sig.value == SIGXFSZ then (OUTPUT_LIMIT, exitCode, sig)
      else (SIGNALED, exitCode, sig)
    else if cpuMs > timeMs then (TIMEOUT, exitCode, sig)
    else if memoryKb > limitKb then (MEMORY, exitCode, sig)
    else (EXITED, exitCode, sig)
  }

  datatype Report = Report(status: RunStatus, exitCode: Option<int>, signal: Option<int>, cpuMs: int, wallMs: int,
                           memoryKb: int, out: Bytes, err: Bytes)

  ghost function AllChunks(polls: seq<Poll>, end: Ending): seq<Chunk> {
    Chunks(polls) + end.chunks + end.drained
  }

  /** The child ended by itself and broke no limit: neither at any poll nor at the end. */
  ghost predicate Within(l: Limits, polls: seq<Poll>, end: Ending) {
    && end.code >= 0
    && end.cpuMs <= l.timeMs
    && end.maxRssKb <= l.memoryMb * 1024
    && |Written(AllChunks(polls, end), Stdout)| <= l.maxOutput
    && forall i :: 0 <= i < |polls| ==> PollWithin(l, polls[i])
  }

  ghost predicate PollWithin(l: Limits, p: Poll) {
    && (p.cpuMs.Some? ==> p.cpuMs.value <= l.timeMs)
    && p.elapsedMs <= l.wallMs
    && (p.rssKb.Some? ==> p.rssKb.value <= l.memoryMb * 1024)
  }

  /** What a status other than EXITED accuses the child of really happened. */
  ghost predicate Guilty(l: Limits, polls: seq<Poll>, end: Ending, status: RunStatus) {
    match status
    case OUTPUT_LIMIT =>
      |Written(AllChunks(polls, end), Stdout)| > l.maxOutput || end.code == -25
    case TIMEOUT =>
      (exists i :: 0 <= i < |polls| && TooSlow(l, polls[i])) || end.cpuMs > l.timeMs || end.code == -24
    case MEMORY =>
      || (exists i :: 0 <= i < |polls| && TooBig(l, polls[i]))
      || end.maxRssKb > l.memoryMb * 1024 || (end.oom && end.code == -9)
    case SIGNALED => end.code < 0
    case EXITED => false
  }

  ghost predicate TooSlow(l: Limits, p: Poll) {
    (p.cpuMs.Some? && p.cpuMs.value > l.timeMs) || p.elapsedMs > l.wallMs
  }

  ghost predicate TooBig(l: Limits, p: Poll) {
    p.rssKb.Some? && p.rssKb.value > l.memoryMb * 1024
  }

  /** Turn i is the first at which the child has broken a limit. */
  ghost predicate FirstBroken(l: Limits, polls: seq<Poll>, i: nat)
    requires i < |polls|
  {
    Broken(l, polls, i) && forall j :: 0 <= j < i ==> !Broken(l, polls, j)
  }

  ghost predicate Broken(l: Limits, polls: seq<Poll>, i: nat)
    requires i < |polls|
  {
    OverAt(l, polls, i) || TooSlow(l, polls[i]) || TooBig(l, polls[i])
  }

  /** The child ended by itself, with all it wrote within the cap. */
  ghost predicate Unkilled(l: Limits, polls: seq<Poll>, end: Ending) {
    && (forall i :: 0 <= i < |polls| ==> !Broken(l, polls, i))
    && |Written(AllChunks(polls, end), Stdout)| <= l.maxOutput
  }

  ghost predicate OutOfMemory(end: Ending) {
    end.oom && end.code == -9
  }

  /** What each status says of the run. A child is killed for the first limit it is seen to have broken, the output
      before the time before the memory; one that was not killed is judged by how it ended. */
  ghost predicate Earns(l: Limits, polls: seq<Poll>, end: Ending, status: RunStatus) {
    match status
    case OUTPUT_LIMIT =>
      || (exists i :: 0 <= i < |polls| && FirstBroken(l, polls, i) && OverAt(l, polls, i))
      || (&& (forall i :: 0 <= i < |polls| ==> !Broken(l, polls, i))
          && |Written(AllChunks(polls, end), Stdout)| > l.maxOutput)
      || (Unkilled(l, polls, end) && end.code == -25 && end.cpuMs <= l.timeMs)
    case TIMEOUT =>
      || (exists i :: 0 <= i < |polls| && FirstBroken(l, polls, i) && !OverAt(l, polls, i) && TooSlow(l, polls[i]))
      || (Unkilled(l, polls, end) && !OutOfMemory(end) && (end.cpuMs > l.timeMs || end.code == -24))
    case MEMORY =>
      || (exists i :: 0 <= i < |polls| && FirstBroken(l, polls, i) && !OverAt(l, polls, i) && !TooSlow(l, polls[i]))
      || (&& Unkilled(l, polls, end)
          && (OutOfMemory(end) || (end.code >= 0 && end.cpuMs <= l.timeMs && end.maxRssKb > l.memoryMb * 1024)))
    case SIGNALED =>
      && Unkilled(l, polls, end) && !OutOfMemory(end) && end.cpuMs <= l.timeMs
      && end.code < 0 && end.code != -24 && end.code != -25
    case EXITED => Within(l, polls, end)
  }

  /** What `classify` is told was the reason for killing. */
  ghost function Reason(l: Limits, polls: seq<Poll>, end: Ending): Option<RunStatus> {
    var killed := Decision(l, polls, |polls|);
    if killed.None? && |Written(AllChunks(polls, end), Stdout)| > l.maxOutput then Some(OUTPUT_LIMIT) else killed
  }

  /** What the report of a run says about the run. */
  ghost predicate IsReportOf(l: Limits, polls: seq<Poll>, end: Ending, report: Report) {
    && report.out == First(l.maxOutput, Written(AllChunks(polls, end), Stdout))
    && report.err == First(l.maxStderr, Written(AllChunks(polls, end), Stderr))
    && (report.status == EXITED <==> Within(l, polls, end))
    && (report.status != EXITED ==> Guilty(l, polls, end, report.status))
    && (forall status :: report.status == status <==> Earns(l, polls, end, status))
    && report.exitCode == (if end.code >= 0 then Some(end.code) else None)
    && report.signal == (if end.code < 0 then Some(0 - end.code) else None)
    && report.cpuMs == end.cpuMs && report.wallMs == end.wallMs
    && report.memoryKb == Max(end.maxRssKb, Peak(l, polls, |polls|))
  }

  /** `run`. */
  method Supervise(l: Limits, polls: seq<Poll>, end: Ending) returns (report: Report)
    requires l.memoryMb >= 0
    ensures IsReportOf(l, polls, end, report)
  {
    hide Within, Guilty, Earns, Decision, Peak, Chunks, Written, First;
    Turns(l, polls, 0);
    var capture := new Capture(l.maxOutput, l.maxStderr);
    var killed: Option<RunStatus> := None;
    var peak := 0;
    for n := 0 to |polls|
      invariant fresh(capture) && capture.Valid()
      invariant capture.maxOutput == l.maxOutput && capture.maxStderr == l.maxStderr
      invariant capture.chunks == Chunks(polls[..n])
      invariant killed == Decision(l, polls, n) && peak == Peak(l, polls, n)
    {
      var p := polls[n];
      Turns(l, polls, n + 1);
      capture.Pump(p.chunks);
      if killed.None? {
        peak := Max(peak, if p.rssKb.Some? then p.rssKb.value else 0);
        killed := Judge(l, capture.outOver, p);
      }
    }
    assert polls[..|polls|] == polls;
    capture.Pump(end.chunks);
    capture.Pump(end.drained);
    var memoryKb := Max(end.maxRssKb, peak);
    if capture.outOver && killed.None? {
      killed := Some(OUTPUT_LIMIT);
    }
    var (status, exitCode, sig) := Classify(killed, end.code, end.cpuMs, memoryKb, l.timeMs, LimitKb(l), end.oom);
    report := Report(status, exitCode, sig, end.cpuMs, end.wallMs, memoryKb, capture.out, capture.err);
    ExitedIffWithin(l, polls, end);
    NotExitedIsGuilty(l, polls, end);
    forall s ensures status == s <==> Earns(l, polls, end, s) { StatusIffEarned(l, polls, end, s); }
  }

  lemma Turns(l: Limits, polls: seq<Poll>, n: nat)
    requires n <= |polls|
    ensures n == 0 ==> Decision(l, polls, n) == None && Peak(l, polls, n) == 0 && Chunks(polls[..n]) == []
    ensures n > 0 ==>
      var before, p := Decision(l, polls, n - 1), polls[n - 1];
      && Chunks(polls[..n]) == Chunks(polls[..n - 1]) + p.chunks
      && Decision(l, polls, n) == (if before.Some? then before else Judge(l, OverAt(l, polls, n - 1), p))
      && Peak(l, polls, n) == (if before.Some? then Peak(l, polls, n - 1)
                               else Max(Peak(l, polls, n - 1), if p.rssKb.Some? then p.rssKb.value else 0))
  {
    if n > 0 { assert polls[..n][..n - 1] == polls[..n - 1]; }
  }

  lemma {:induction false} DecidedIff(l: Limits, polls: seq<Poll>, n: nat)
    requires n <= |polls|
    ensures Decision(l, polls, n).None? <==> forall i :: 0 <= i < n ==> QuietAt(l, polls, i)
    ensures Decision(l, polls, n) != Some(EXITED)
  {
    hide OverAt;
    if n > 0 {
      DecidedIff(l, polls, n - 1);
      assert QuietAt(l, polls, n - 1) <==> Judge(l, OverAt(l, polls, n - 1), polls[n - 1]).None?;
    }
  }

  lemma {:induction false} PeakWithin(l: Limits, polls: seq<Poll>, n: nat)
    requires n <= |polls| && l.memoryMb >= 0 && Decision(l, polls, n).None?
    ensures Peak(l, polls, n) <= LimitKb(l)
  {
    hide OverAt;
    if n > 0 { PeakWithin(l, polls, n - 1); }
  }

  /** A run is classified EXITED exactly when it kept every limit. */
  lemma ExitedIffWithin(l: Limits, polls: seq<Poll>, end: Ending)
    requires l.memoryMb >= 0
    ensures var memoryKb := Max(end.maxRssKb, Peak(l, polls, |polls|));
            Classify(Reason(l, polls, end), end.code, end.cpuMs, memoryKb, l.timeMs, LimitKb(l), end.oom).0 == EXITED
            <==> Within(l, polls, end)
    ensures Reason(l, polls, end) != Some(EXITED)
  {
    hide OverAt, Written, AllChunks;
    DecidedIff(l, polls, |polls|);
    if Decision(l, polls, |polls|).None? {
      PeakWithin(l, polls, |polls|);
      forall i | 0 <= i < |polls| ensures PollWithin(l, polls[i]) { assert QuietAt(l, polls, i); }
    }
    if Within(l, polls, end) {
      forall i | 0 <= i < |polls| ensures QuietAt(l, polls, i) {
        EarlyOutput(l, polls, end, i);
        assert PollWithin(l, polls[i]);
      }
    }
  }

  /** A decision was taken at some turn, for what that turn saw. */
  lemma {:induction false} DecisionIsGuilty(l: Limits, polls: seq<Poll>, n: nat)
    requires n <= |polls|
    ensures Decision(l, polls, n).Some? ==> exists i :: 0 <= i < n && Saw(l, polls, i, Decision(l, polls, n).value)
  {
    hide OverAt;
    if n > 0 {
      DecisionIsGuilty(l, polls, n - 1);
      var decision := Decision(l, polls, n);
      if Decision(l, polls, n - 1).Some? {
        var i :| 0 <= i < n - 1 && Saw(l, polls, i, Decision(l, polls, n - 1).value);
        assert Saw(l, polls, i, decision.value);
      } else if decision.Some? {
        assert Saw(l, polls, n - 1, decision.value);
      }
    }
  }

  ghost predicate Saw(l: Limits, polls: seq<Poll>, i: nat, status: RunStatus)
    requires i < |polls|
  {
    match status
    case OUTPUT_LIMIT => OverAt(l, polls, i)
    case TIMEOUT => TooSlow(l, polls[i])
    case MEMORY => TooBig(l, polls[i])
    case _ => false
  }

  /** No child is accused of something it did not do. */
  lemma NotExitedIsGuilty(l: Limits, polls: seq<Poll>, end: Ending)
    requires l.memoryMb >= 0
    ensures var memoryKb := Max(end.maxRssKb, Peak(l, polls, |polls|));
            var reason := Reason(l, polls, end);
            var status := Classify(reason, end.code, end.cpuMs, memoryKb, l.timeMs, LimitKb(l), end.oom).0;
            status != EXITED ==> Guilty(l, polls, end, status)
  {
    hide OverAt, Written, AllChunks;
    DecisionIsGuilty(l, polls, |polls|);
    var decision := Decision(l, polls, |polls|);
    if decision.None? {
      PeakWithin(l, polls, |polls|);
    } else {
      var i :| 0 <= i < |polls| && Saw(l, polls, i, decision.value);
      EarlyOutput(l, polls, end, i);
    }
  }

  /** The decision is what the first turn that breaks a limit calls for. */
  lemma {:induction false} DecisionIff(l: Limits, polls: seq<Poll>, n: nat)
    requires n <= |polls|
    ensures Decision(l, polls, n).None? <==> forall i :: 0 <= i < n ==> !Broken(l, polls, i)
    ensures forall i :: 0 <= i < n && FirstBroken(l, polls, i) ==>
      Decision(l, polls, n) == Judge(l, OverAt(l, polls, i), polls[i])
    ensures Decision(l, polls, n).Some? ==> exists i :: 0 <= i < n && FirstBroken(l, polls, i)
  {
    hide OverAt;
    if n > 0 {
      DecisionIff(l, polls, n - 1);
      if Decision(l, polls, n - 1).None? && Broken(l, polls, n - 1) { assert FirstBroken(l, polls, n - 1); }
    }
  }

  /** `classify` gives a status exactly to the runs that earn it. */
  lemma StatusIffEarned(l: Limits, polls: seq<Poll>, end: Ending, status: RunStatus)
    requires l.memoryMb >= 0
    ensures var memoryKb := Max(end.maxRssKb, Peak(l, polls, |polls|));
            var reason := Reason(l, polls, end);
            Classify(reason, end.code, end.cpuMs, memoryKb, l.timeMs, LimitKb(l), end.oom).0 == status
            <==> Earns(l, polls, end, status)
  {
    DecisionIff(l, polls, |polls|);
    ExitedIffWithin(l, polls, end);
    hide OverAt, Written, AllChunks, Within;
    var decision := Decision(l, polls, |polls|);
    if decision.None? {
      PeakWithin(l, polls, |polls|);
    } else {
      var i :| 0 <= i < |polls| && FirstBroken(l, polls, i);
      assert forall j :: 0 <= j < |polls| && FirstBroken(l, polls, j) ==> j == i;
    }
  }

  /** If the whole output fits the cap, so does the output read by the end of any turn. */
  lemma EarlyOutput(l: Limits, polls: seq<Poll>, end: Ending, i: nat)
    requires i < |polls|
    ensures |Written(AllChunks(polls, end), Stdout)| <= l.maxOutput ==> !OverAt(l, polls, i)
  {
    OutputGrows(polls, i + 1);
    WrittenOfSum(Chunks(polls), end.chunks, Stdout);
    WrittenOfSum(Chunks(polls) + end.chunks, end.drained, Stdout);
  }

  lemma {:induction false} OutputGrows(polls: seq<Poll>, i: nat)
    requires i <= |polls|
    ensures |Written(Chunks(polls[..i]), Stdout)| <= |Written(Chunks(polls), Stdout)|
    decreases |polls|
  {
    if i == |polls| {
      assert polls[..i] == polls;
    } else {
      var front := polls[..|polls| - 1];
      assert front[..i] == polls[..i];
      OutputGrows(front, i);
      WrittenOfSum(Chunks(front), polls[|polls| - 1].chunks, Stdout);
    }
  }
}
