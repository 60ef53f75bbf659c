/** The supervisor's reply: one line with a JSON header, then the captured stdout and stderr as raw bytes; and how the
    judge takes it apart again. A byte is a character below 256. */
module Reply {
  import opened Wrappers
  import opened Json
  import opened Supervisor

  datatype Outcome<T> = Ok(value: T) | NoHeader | Malformed | MissingKey

  // ----- writing -----

  function StatusName(status: RunStatus): (s: string)
    ensures StatusOf(s) == Some(status) && Plain(s) && |s| <= 12
  {
    match status
    case EXITED => "EXITED"
    case TIMEOUT => "TIMEOUT"
    case MEMORY => "MEMORY"
    case OUTPUT_LIMIT => "OUTPUT_LIMIT"
    case SIGNALED => "SIGNALED"
  }

  function StatusOf(s: string): Option<RunStatus> {
    if s == "EXITED" then Some(EXITED)
    else if s == "TIMEOUT" then Some(TIMEOUT)
    else if s == "MEMORY" then Some(MEMORY)
    else if s == "OUTPUT_LIMIT" then Some(OUTPUT_LIMIT)
    else if s == "SIGNALED" then Some(SIGNALED)
    else None
  }

  const KEYS: seq<string> :=
    ["status", "exit_code", "signal", "cpu_ms", "wall_ms", "memory_kb", "stdout_len", "stderr_len"]

  function OrNull(n: Option<int>): Value {
    match n
    case None => Null
    case Some(i) => Int(i)
  }

  function HeaderValues(r: Report): seq<Value> {
    [String(StatusName(r.status)), OrNull(r.exitCode), OrNull(r.signal), Int(r.cpuMs), Int(r.wallMs), Int(r.memoryKb),
     Int(|r.out|), Int(|r.err|)]
  }

  function Zip(keys: seq<string>, values: seq<Value>): (members: seq<(string, Value)>)
    requires |keys| == |values|
    ensures |members| == |keys|
    ensures forall i :: 0 <= i < |keys| ==> members[i] == (keys[i], values[i])
  {
    seq(|keys|, i requires 0 <= i < |keys| => (keys[i], values[i]))
  }

  /** `build_header`. */
  function BuildHeader(r: Report): string {
    HeaderIsSimple(r);
    Dumps(Zip(KEYS, HeaderValues(r)))
  }

  lemma HeaderIsSimple(r: Report)
    ensures SimpleMembers(Zip(KEYS, HeaderValues(r)))
  {
    forall i | 0 <= i < |KEYS| ensures Plain(KEYS[i]) && Simple(HeaderValues(r)[i]) {
      KeyIsPlain(i);
    }
  }

  lemma KeyIsPlain(i: nat)
    requires i < |KEYS|
    ensures Plain(KEYS[i]) && |KEYS[i]| <= 10
  {
  }

  /** What the supervisor writes. */
  function Write(r: Report): Bytes {
    BuildHeader(r) + "\n" + r.out + r.err
  }

  // ----- reading -----

  /** How many bytes precede the first newline. */
  function LineLength(raw: Bytes): (n: nat)
    ensures n <= |raw| && (n < |raw| ==> raw[n] == '\n')
    ensures '\n' !in raw[..n]
  {
    if raw == "" || raw[0] == '\n' then 0
    else
      var n := LineLength(raw[1..]);
      assert raw[..n + 1] == [raw[0]] + raw[1..][..n];
      n + 1
  }

  /** `isinstance(v, int)`: True and False are integers. */
  function AsInt(v: Value): Option<int> {
    match v
    case Int(n) => Some(n)
    case Bool(b) => Some(if b then 1 else 0)
    case _ => None
  }

  function IntAt(header: map<string, Value>, key: string): Option<int> {
    if key in header then AsInt(header[key]) else None
  }

  function StatusAt(header: map<string, Value>): Option<RunStatus> {
    if "status" in header && header["status"].String? then StatusOf(header["status"].s) else None
  }

  /** The header promises exactly the bytes that follow it. */
  predicate Consistent(header: map<string, Value>, body: Bytes) {
    var (outLen, errLen) := (IntAt(header, "stdout_len"), IntAt(header, "stderr_len"));
    && outLen.Some? && errLen.Some?
    && IntAt(header, "cpu_ms").Some? && IntAt(header, "wall_ms").Some? && IntAt(header, "memory_kb").Some?
    && outLen.value >= 0 && errLen.value >= 0
    && outLen.value + errLen.value == |body|
    && StatusAt(header).Some?
  }

  /** The checks on a header, and the body cut where the header says. */
  function Cut(header: Option<Value>, body: Bytes): (r: Outcome<(map<string, Value>, Bytes, Bytes)>)
    ensures r.Ok? ==>
      var (members, out, err) := r.value;
      && Consistent(members, body) && body == out + err
      && IntAt(members, "stdout_len") == Some(|out|) && IntAt(members, "stderr_len") == Some(|err|)
    ensures !r.NoHeader?
  {
    if header.None? || !header.value.Object? || !Consistent(header.value.members, body) then Malformed
    else
      var members := header.value.members;
      var outLen := IntAt(members, "stdout_len").value;
      Ok((members, body[..outLen], body[outLen..]))
  }

  /** `parse_supervisor_output`. Every byte after the header line is kept, in order. */
  function ParseSupervisorOutput(raw: Bytes): (r: Outcome<(map<string, Value>, Bytes, Bytes)>)
    ensures r.Ok? ==>
      var (header, out, err) := r.value;
      && Consistent(header, out + err)
      && raw == raw[..LineLength(raw)] + "\n" + out + err
      && IntAt(header, "stdout_len") == Some(|out|) && IntAt(header, "stderr_len") == Some(|err|)
    ensures r.NoHeader? <==> '\n' !in raw
  {
    var n := LineLength(raw);
    if n == |raw| then NoHeader else Cut(Loads(raw[..n]), raw[n + 1..])
  }

  /** The judge's reading of a reply: two more keys have to be there, but they may hold anything. */
  function ReadResult(raw: Bytes): Outcome<Report> {
    match ParseSupervisorOutput(raw)
    case NoHeader => NoHeader
    case Malformed => Malformed
    case MissingKey => MissingKey
    case Ok((header, out, err)) =>
      if "exit_code" !in header || "signal" !in header then MissingKey
      else Ok(Report(StatusAt(header).value, AsInt(header["exit_code"]), AsInt(header["signal"]),
                     IntAt(header, "cpu_ms").value, IntAt(header, "wall_ms").value, IntAt(header, "memory_kb").value,
                     out, err))
  }

  // ----- what is written is read back -----

  lemma {:induction false} FirstLine(line: string, body: Bytes)
    requires '\n' !in line
    ensures LineLength(line + "\n" + body) == |line|
  {
    if line != "" {
      assert (line + "\n" + body)[1..] == line[1..] + "\n" + body;
      FirstLine(line[1..], body);
    }
  }

  predicate Distinct(members: seq<(string, Value)>) {
    forall i, j :: 0 <= i < j < |members| ==> members[i].0 != members[j].0
  }

  /** Members set one after the other are all there when their names differ. */
  lemma {:induction false} Lookup(before: map<string, Value>, members: seq<(string, Value)>)
    requires Distinct(members)
    ensures forall i :: 0 <= i < |members| ==>
      members[i].0 in Updated(before, members) && Updated(before, members)[members[i].0] == members[i].1
    ensures forall k :: k in before && (forall i :: 0 <= i < |members| ==> members[i].0 != k) ==>
      k in Updated(before, members) && Updated(before, members)[k] == before[k]
    decreases |members|
  {
    if members != [] {
      var rest := members[1..];
      assert forall i :: 0 <= i < |rest| ==> rest[i] == members[i + 1];
      Lookup(before[members[0].0 := members[0].1], rest);
    }
  }

  lemma KeysDiffer(i: nat, j: nat)
    requires i < j < |KEYS|
    ensures KEYS[i] != KEYS[j]
  {
    assert |KEYS[i]| == |KEYS[j]| ==> KEYS[i][0] != KEYS[j][0] || KEYS[i][3] != KEYS[j][3];
  }

  /** The header as it is read back. */
  ghost function Header(r: Report): map<string, Value> {
    Updated(map[], Zip(KEYS, HeaderValues(r)))
  }

  lemma HeaderHolds(r: Report, i: nat)
    requires i < |KEYS|
    ensures KEYS[i] in Header(r) && Header(r)[KEYS[i]] == HeaderValues(r)[i]
  {
    var members := Zip(KEYS, HeaderValues(r));
    forall i, j | 0 <= i < j < |members| ensures members[i].0 != members[j].0 {
      KeysDiffer(i, j);
    }
    Lookup(map[], members);
    assert members[i] == (KEYS[i], HeaderValues(r)[i]);
  }

  lemma HeaderFields(r: Report)
    ensures var h := Header(r);
      && StatusAt(h) == Some(r.status)
      && "exit_code" in h && AsInt(h["exit_code"]) == r.exitCode
      && "signal" in h && AsInt(h["signal"]) == r.signal
      && IntAt(h, "cpu_ms") == Some(r.cpuMs) && IntAt(h, "wall_ms") == Some(r.wallMs)
      && IntAt(h, "memory_kb") == Some(r.memoryKb)
      && IntAt(h, "stdout_len") == Some(|r.out|) && IntAt(h, "stderr_len") == Some(|r.err|)
  {
    for i := 0 to |KEYS|
      invariant forall k :: 0 <= k < i ==> KEYS[k] in Header(r) && Header(r)[KEYS[k]] == HeaderValues(r)[k]
    {
      HeaderHolds(r, i);
    }
    hide Header;
    assert KEYS[0] == "status" && KEYS[1] == "exit_code" && KEYS[2] == "signal" && KEYS[3] == "cpu_ms";
    assert KEYS[4] == "wall_ms" && KEYS[5] == "memory_kb" && KEYS[6] == "stdout_len" && KEYS[7] == "stderr_len";
  }

  lemma HeaderReads(r: Report)
    ensures Loads(BuildHeader(r)) == Some(Object(Header(r))) && '\n' !in BuildHeader(r)
  {
    var members := Zip(KEYS, HeaderValues(r));
    HeaderIsSimple(r);
    OneLine(members);
    LoadsDumps(members);
    hide Loads, DumpMembers, Updated, Zip, HeaderValues;
  }

  /** A line without a newline is cut off where it ends, whatever follows. */
  lemma CutLine(line: string, out: Bytes, err: Bytes)
    requires '\n' !in line
    ensures var raw := line + "\n" + out + err;
      && LineLength(raw) == |line| < |raw| && raw[..|line|] == line && raw[|line| + 1..] == out + err
  {
    assert line + "\n" + out + err == line + "\n" + (out + err);
    FirstLine(line, out + err);
  }

  lemma CutWritten(r: Report)
    ensures Cut(Some(Object(Header(r))), r.out + r.err) == Ok((Header(r), r.out, r.err))
  {
    HeaderFields(r);
    hide Header, StatusAt, IntAt;
    var body := r.out + r.err;
    assert body[..|r.out|] == r.out && body[|r.out|..] == r.err;
  }

  lemma ParseWritten(r: Report)
    ensures ParseSupervisorOutput(Write(r)) == Ok((Header(r), r.out, r.err))
  {
    HeaderReads(r);
    CutWritten(r);
    CutLine(BuildHeader(r), r.out, r.err);
    hide BuildHeader, Loads, Header, LineLength, Cut;
  }

  /** Whatever the child wrote, and whatever its numbers are, the judge reads back the supervisor's report. */
  lemma ReadWritten(r: Report)
    ensures ReadResult(Write(r)) == Ok(r)
  {
    ParseWritten(r);
    HeaderFields(r);
    hide Write, ParseSupervisorOutput, Header, StatusAt, IntAt, AsInt;
  }

  // ----- which replies are accepted -----

  /** The line announces this report: its status by name, its numbers, and the lengths of its two outputs. */
  ghost predicate Announces(line: string, r: Report) {
    match Loads(line)
    case Some(Object(header)) =>
      && "status" in header && header["status"].String? && Names(header["status"].s, r.status)
      && "exit_code" in header && Holds(header["exit_code"], r.exitCode)
      && "signal" in header && Holds(header["signal"], r.signal)
      && "cpu_ms" in header && Holds(header["cpu_ms"], Some(r.cpuMs))
      && "wall_ms" in header && Holds(header["wall_ms"], Some(r.wallMs))
      && "memory_kb" in header && Holds(header["memory_kb"], Some(r.memoryKb))
      && "stdout_len" in header && Holds(header["stdout_len"], Some(|r.out|))
      && "stderr_len" in header && Holds(header["stderr_len"], Some(|r.err|))
    case _ => false
  }

  /** The value is that integer, with true and false for 1 and 0; or it is none, and no integer is asked for. */
  ghost predicate Holds(v: Value, n: Option<int>) {
    match v
    case Int(i) => n == Some(i)
    case Bool(true) => n == Some(1)
    case Bool(false) => n == Some(0)
    case _ => n == None
  }

  ghost predicate Names(s: string, status: RunStatus) {
    match status
    case EXITED => s == "EXITED"
    case TIMEOUT => s == "TIMEOUT"
    case MEMORY => s == "MEMORY"
    case OUTPUT_LIMIT => s == "OUTPUT_LIMIT"
    case SIGNALED => s == "SIGNALED"
  }

  /** A reply is read as a report exactly if it is a line that announces it, then its stdout, then its stderr, and
      nothing else. */
  lemma ReadIff(raw: Bytes, r: Report)
    ensures ReadResult(raw) == Ok(r)
       <==> exists line :: '\n' !in line && raw == line + "\n" + r.out + r.err && Announces(line, r)
  {
    if ReadResult(raw) == Ok(r) { ReadAnnounces(raw, r); }
    if line :| '\n' !in line && raw == line + "\n" + r.out + r.err && Announces(line, r) {
      AnnouncedReads(line, r);
    }
  }

  lemma ReadAnnounces(raw: Bytes, r: Report)
    requires ReadResult(raw) == Ok(r)
    ensures var line := raw[..LineLength(raw)];
      '\n' !in line && raw == line + "\n" + r.out + r.err && Announces(line, r)
  {
    CutFrom(raw);
    hide LineLength, Loads, StatusAt, Announces, IntAt, AsInt, Consistent;
    ReadAnnounced(raw[..LineLength(raw)], raw, r);
  }

  lemma ReadAnnounced(line: string, raw: Bytes, r: Report)
    requires ReadResult(raw) == Ok(r)
    requires Loads(line) == Some(Object(ParseSupervisorOutput(raw).value.0))
    ensures Announces(line, r)
  {
    NamesIff(ParseSupervisorOutput(raw).value.0, r.status);
    forall v, n ensures AsInt(v) == n <==> Holds(v, n) { HoldsIff(v, n); }
    hide LineLength, Loads, Cut, StatusAt, Names, AsInt, Holds, ParseSupervisorOutput;
  }

  lemma HoldsIff(v: Value, n: Option<int>)
    ensures AsInt(v) == n <==> Holds(v, n)
  {
  }

  lemma CutFrom(raw: Bytes)
    requires ParseSupervisorOutput(raw).Ok?
    ensures var ((header, out, err), line) := (ParseSupervisorOutput(raw).value, raw[..LineLength(raw)]);
      Loads(line) == Some(Object(header)) && '\n' !in line && raw == line + "\n" + out + err
  {
  }

  lemma NamesIff(header: map<string, Value>, status: RunStatus)
    ensures StatusAt(header) == Some(status)
       <==> "status" in header && header["status"].String? && Names(header["status"].s, status)
  {
  }

  lemma AnnouncedReads(line: string, r: Report)
    requires '\n' !in line && Announces(line, r)
    ensures ReadResult(line + "\n" + r.out + r.err) == Ok(r)
  {
    CutLine(line, r.out, r.err);
    CutAnnounced(line, r);
    hide LineLength, Loads, Cut, StatusAt, IntAt;
  }

  /** What an announced report is read as. */
  lemma CutAnnounced(line: string, r: Report)
    requires Announces(line, r)
    ensures var header := Loads(line).value.members;
      && Cut(Loads(line), r.out + r.err) == Ok((header, r.out, r.err))
      && StatusAt(header) == Some(r.status) && IntAt(header, "cpu_ms") == Some(r.cpuMs)
      && IntAt(header, "wall_ms") == Some(r.wallMs) && IntAt(header, "memory_kb") == Some(r.memoryKb)
  {
    var body := r.out + r.err;
    assert body[..|r.out|] == r.out && body[|r.out|..] == r.err;
    NamesIff(Loads(line).value.members, r.status);
    hide Loads, StatusAt, Names;
  }

  // ----- the reply fits the cap the judge reads it under -----

  function Pow10(k: nat): (p: nat)
    ensures p > 0
  {
    if k == 0 then 1 else 10 * Pow10(k - 1)
  }

  lemma {:induction false} DecimalLength(n: nat, k: nat)
    requires n < Pow10(k) && k > 0
    ensures |Decimal(n)| <= k
  {
    if n >= 10 { DecimalLength(n / 10, k - 1); }
  }

  const DIGITS := 400

  predicate Short(n: int) {
    0 - Pow10(DIGITS) < n < Pow10(DIGITS)
  }

  predicate ShortValue(v: Value) {
    (v.Int? && Short(v.n)) || v.Null? || (v.String? && |v.s| <= 12)
  }

  lemma DumpLength(v: Value)
    requires Simple(v) && ShortValue(v)
    ensures |Dump(v)| <= DIGITS + 1
  {
    hide Pow10, Decimal;
    if v.Int? { DecimalLength(if v.n < 0 then 0 - v.n else v.n, DIGITS); }
  }

  lemma {:induction false} MembersLength(members: seq<(string, Value)>)
    requires SimpleMembers(members)
    requires forall i :: 0 <= i < |members| ==> |members[i].0| <= 10 && ShortValue(members[i].1)
    ensures |DumpMembers(members)| <= |members| * (DIGITS + 15)
  {
    DumpLength(members[0].1);
    hide Dump;
    if |members| > 1 { MembersLength(members[1..]); }
  }

  /** The allowance of `_run` for the header is enough, so a reply is never cut off by the cap. */
  lemma ReplyFits(r: Report, maxOutput: nat, maxStderr: nat)
    requires |r.out| <= maxOutput && |r.err| <= maxStderr
    requires Short(r.cpuMs) && Short(r.wallMs) && Short(r.memoryKb) && Short(|r.out|) && Short(|r.err|)
    requires r.exitCode.Some? ==> Short(r.exitCode.value)
    requires r.signal.Some? ==> Short(r.signal.value)
    ensures |Write(r)| <= maxOutput + maxStderr + 4096
  {
    var members := Zip(KEYS, HeaderValues(r));
    HeaderIsSimple(r);
    forall i | 0 <= i < |members| ensures |members[i].0| <= 10 && ShortValue(members[i].1) {
      KeyIsPlain(i);
    }
    MembersLength(members);
  }
}
