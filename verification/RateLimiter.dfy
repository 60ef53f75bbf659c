/** The sliding-window rate limiter over one Redis sorted set (one scope and identifier).

    A hit is two Redis steps: a transaction that trims, adds and counts, and, when the count is too high, a later
    removal of the member just added. Timestamps are real numbers and do not decrease from one transaction to the
    next. */
module RateLimiter {
  import opened Wrappers
  import opened SetFacts

  type Id = nat

  datatype RateLimit = RateLimit(limit: nat, window: int)

  /** `entries` is the sorted set, member to score; `clock` the time of the last transaction; `admitted` the hits
      allowed by their count, in order; `rejected` the members that are still to be removed. */
  datatype Window = Window(entries: map<Id, real>, clock: real, admitted: seq<(Id, real)>, rejected: set<Id>)

  // ----- the Redis commands -----

  /** `ZREMRANGEBYSCORE key 0 (now - window)`: scores are times, so never negative. */
  function Trim(entries: map<Id, real>, until: real): map<Id, real> {
    map m | m in entries && entries[m] > until :: entries[m]
  }

  /** The transaction: trim, `ZADD`, `ZCARD`. */
  function Counted(c: RateLimit, entries: map<Id, real>, member: Id, now: real): map<Id, real> {
    Trim(entries, now - c.window as real)[member := now]
  }

  predicate Admits(c: RateLimit, entries: map<Id, real>, member: Id, now: real) {
    |Counted(c, entries, member, now)| <= c.limit
  }

  function Record(c: RateLimit, s: Window, member: Id, now: real): Window {
    var entries := Counted(c, s.entries, member, now);
    if Admits(c, s.entries, member, now)
    then Window(entries, now, s.admitted + [(member, now)], s.rejected)
    else Window(entries, now, s.admitted, s.rejected + {member})
  }

  /** `ZREM` on the reject path. */
  function Withdraw(s: Window, member: Id): Window {
    s.(entries := s.entries - {member}, rejected := s.rejected - {member})
  }

  // ----- runs -----

  datatype Event =
    | Hit(member: Id, now: real)       // the transaction
    | Remove(member: Id)               // the later ZREM of a rejected member
    | RemoveLost(member: Id)           // the ZREM that never came through
    | KeyExpired(at: real)             // `EXPIRE key window` ran out

  /** Members are unique; time does not go back; the key expires a whole window after the last transaction. */
  predicate Possible(c: RateLimit, s: Window, e: Event) {
    match e
    case Hit(member, now) =>
      && s.clock <= now && member !in s.entries && member !in s.rejected
      && forall k :: 0 <= k < |s.admitted| ==> s.admitted[k].0 != member
    case Remove(member) => member in s.rejected
    case RemoveLost(member) => member in s.rejected
    case KeyExpired(at) => s.clock + c.window as real <= at
  }

  function Step(c: RateLimit, s: Window, e: Event): Window {
    match e
    case Hit(member, now) => Record(c, s, member, now)
    case Remove(member) => Withdraw(s, member)
    case RemoveLost(member) => s.(rejected := s.rejected - {member})
    case KeyExpired(at) => s.(entries := map[], clock := at)
  }

  ghost predicate Leads(c: RateLimit, s: Window, events: seq<Event>, t: Window)
    decreases |events|
  {
    if events == [] then s == t
    else Possible(c, s, events[0]) && Leads(c, Step(c, s, events[0]), events[1..], t)
  }

  function Start(): Window {
    Window(map[], 0.0, [], {})
  }

  ghost predicate Reachable(c: RateLimit, s: Window) {
    exists events :: Leads(c, Start(), events, s)
  }

  // ----- the invariant -----

  ghost predicate InOrder(s: Window) {
    && (forall k :: 0 <= k < |s.admitted| ==> s.admitted[k].1 <= s.clock)
    && (forall j, k :: 0 <= j < k < |s.admitted| ==> s.admitted[j].1 <= s.admitted[k].1)
    && (forall j, k :: 0 <= j < k < |s.admitted| ==> s.admitted[j].0 != s.admitted[k].0)
  }

  /** Every admitted hit that is still inside the window is in the set. */
  ghost predicate Remembered(c: RateLimit, s: Window) {
    && (forall k :: 0 <= k < |s.admitted| && s.admitted[k].1 > s.clock - c.window as real ==>
          s.admitted[k].0 in s.entries && s.entries[s.admitted[k].0] == s.admitted[k].1)
    && (forall k :: 0 <= k < |s.admitted| ==> s.admitted[k].0 !in s.rejected)
  }

  /** An admitted hit and the one `limit` places before it are at least a window apart. */
  ghost predicate Spread(c: RateLimit, admitted: seq<(Id, real)>) {
    forall k :: c.limit <= k < |admitted| ==> admitted[k].1 >= admitted[k - c.limit].1 + c.window as real
  }

  ghost predicate Inv(c: RateLimit, s: Window) {
    InOrder(s) && Remembered(c, s) && Spread(c, s.admitted)
  }

  /** The last `limit` admitted hits cannot all be in the set that admits one more. */
  lemma AdmitSpreads(c: RateLimit, s: Window, member: Id, now: real)
    requires InOrder(s) && Remembered(c, s) && Possible(c, s, Hit(member, now)) && Admits(c, s.entries, member, now)
    ensures c.limit >= 1
    ensures |s.admitted| >= c.limit ==> s.admitted[|s.admitted| - c.limit].1 <= now - c.window as real
  {
    assert member in Counted(c, s.entries, member, now).Keys;
    var m := |s.admitted|;
    if m >= c.limit && s.admitted[m - c.limit].1 > now - c.window as real {
      RecentCounted(c, s, member, now, m - c.limit);
    }
  }

  lemma RecentCounted(c: RateLimit, s: Window, member: Id, now: real, from: nat)
    requires InOrder(s) && Remembered(c, s) && Possible(c, s, Hit(member, now))
    requires from < |s.admitted| && s.admitted[from].1 > now - c.window as real
    ensures |Counted(c, s.entries, member, now)| >= |s.admitted| - from + 1
  {
    RecentKept(c, s, member, now, from);
    MembersSize(s.admitted, from);
    ExtraMember(Members(s.admitted, from), member, Counted(c, s.entries, member, now).Keys);
  }

  lemma RecentKept(c: RateLimit, s: Window, member: Id, now: real, from: nat)
    requires InOrder(s) && Remembered(c, s) && Possible(c, s, Hit(member, now))
    requires from < |s.admitted| && s.admitted[from].1 > now - c.window as real
    ensures Members(s.admitted, from) <= Counted(c, s.entries, member, now).Keys && member !in Members(s.admitted, from)
  {
    forall k | from <= k < |s.admitted| ensures s.admitted[k].0 in Counted(c, s.entries, member, now) {
      assert k > from ==> s.admitted[from].1 <= s.admitted[k].1;
    }
  }

  /** The members admitted from position k on. */
  ghost function Members(admitted: seq<(Id, real)>, k: nat): set<Id>
    requires k <= |admitted|
  {
    set j | k <= j < |admitted| :: admitted[j].0
  }

  lemma {:induction false} MembersSize(admitted: seq<(Id, real)>, k: nat)
    requires k <= |admitted|
    requires forall i, j :: 0 <= i < j < |admitted| ==> admitted[i].0 != admitted[j].0
    ensures |Members(admitted, k)| == |admitted| - k
    decreases |admitted| - k
  {
    if k < |admitted| {
      MembersSize(admitted, k + 1);
      assert Members(admitted, k) == Members(admitted, k + 1) + {admitted[k].0} by {
        forall x | x in Members(admitted, k) && x != admitted[k].0 ensures x in Members(admitted, k + 1) {
          var j :| k <= j < |admitted| && admitted[j].0 == x;
        }
      }
    }
  }

  lemma HitRemembers(c: RateLimit, s: Window, member: Id, now: real)
    requires InOrder(s) && Remembered(c, s) && Possible(c, s, Hit(member, now))
    ensures InOrder(Record(c, s, member, now)) && Remembered(c, Record(c, s, member, now))
  {
    var t := Record(c, s, member, now);
    forall k | 0 <= k < |t.admitted| && t.admitted[k].1 > now - c.window as real
      ensures t.admitted[k].0 in t.entries && t.entries[t.admitted[k].0] == t.admitted[k].1
    {
      if k < |s.admitted| { assert t.admitted[k] == s.admitted[k]; }
    }
  }

  lemma HitSpreads(c: RateLimit, s: Window, member: Id, now: real)
    requires Inv(c, s) && Possible(c, s, Hit(member, now))
    ensures Spread(c, Record(c, s, member, now).admitted)
  {
    hide InOrder, Remembered, Possible;
    if Admits(c, s.entries, member, now) {
      AdmitSpreads(c, s, member, now);
    }
  }

  lemma StepKeeps(c: RateLimit, s: Window, e: Event)
    requires c.window >= 0 && Inv(c, s) && Possible(c, s, e)
    ensures Inv(c, Step(c, s, e))
  {
    if e.Hit? {
      HitRemembers(c, s, e.member, e.now);
      HitSpreads(c, s, e.member, e.now);
    }
  }

  lemma {:induction false} InvAlong(c: RateLimit, s: Window, events: seq<Event>, t: Window)
    requires c.window >= 0 && Inv(c, s) && Leads(c, s, events, t)
    ensures Inv(c, t)
    decreases |events|
  {
    if events != [] {
      StepKeeps(c, s, events[0]);
      InvAlong(c, Step(c, s, events[0]), events[1..], t);
    }
  }

  /** The admitted hits at a time from..from+window, the end not included. */
  ghost function Within(admitted: seq<(Id, real)>, from: real, window: int): set<nat> {
    set k: nat | k < |admitted| && from <= admitted[k].1 < from + window as real
  }

  /** However the transactions and the late removals of concurrent hits interleave, no window of `window` seconds ever
      holds more than `limit` admitted hits. */
  lemma NeverTooMany(c: RateLimit, s: Window, from: real)
    requires c.window >= 0 && Reachable(c, s)
    ensures |Within(s.admitted, from, c.window)| <= c.limit
  {
    var events :| Leads(c, Start(), events, s);
    InvAlong(c, Start(), events, s);
    var within := Within(s.admitted, from, c.window);
    if within != {} {
      var first := Least(within);
      forall k | k in within ensures first <= k < first + c.limit {
        FarApart(c, s, first, k);
      }
      ShiftedRange(within, first, c.limit);
    }
  }

  lemma FarApart(c: RateLimit, s: Window, first: nat, k: nat)
    requires InOrder(s) && Spread(c, s.admitted) && first < |s.admitted| && k < |s.admitted|
    ensures k >= first + c.limit ==> s.admitted[k].1 >= s.admitted[first].1 + c.window as real
  {
    if k >= first + c.limit {
      assert first < k - c.limit ==> s.admitted[first].1 <= s.admitted[k - c.limit].1;
    }
  }

  lemma {:induction false} Least(s: set<nat>) returns (least: nat)
    requires s != {}
    ensures least in s && forall k :: k in s ==> least <= k
    decreases s
  {
    var k :| k in s;
    if s == {k} {
      least := k;
    } else {
      assert s - {k} != {};
      var other := Least(s - {k});
      assert forall x :: x in s ==> x == k || x in s - {k};
      least := if k < other then k else other;
    }
  }

  lemma {:induction false} ShiftedRange(s: set<nat>, first: nat, n: nat)
    requires forall k :: k in s ==> first <= k < first + n
    ensures |s| <= n
  {
    if n == 0 {
      assert s == {};
    } else {
      ShiftedRange(s - {first + n - 1}, first, n - 1);
    }
  }

  // ----- when a hit is admitted, over runs -----

  /** The admitted hits less than a window old. */
  ghost function Recent(c: RateLimit, admitted: seq<(Id, real)>, now: real): set<nat> {
    set k: nat | k < |admitted| && now < admitted[k].1 + c.window as real
  }

  /** Everything in the set is an admitted hit or still to be removed. */
  ghost predicate Backed(s: Window) {
    forall m :: m in s.entries && m !in s.rejected ==>
      exists k :: 0 <= k < |s.admitted| && s.admitted[k] == (m, s.entries[m])
  }

  lemma StepBacked(c: RateLimit, s: Window, e: Event)
    requires Backed(s) && !e.RemoveLost? && Possible(c, s, e)
    ensures Backed(Step(c, s, e))
  {
    var t := Step(c, s, e);
    if e.Hit? {
      forall m | m in t.entries && m !in t.rejected
        ensures exists k :: 0 <= k < |t.admitted| && t.admitted[k] == (m, t.entries[m])
      {
        if m == e.member {
          assert t.admitted[|s.admitted|] == (m, e.now);
        } else {
          var k :| 0 <= k < |s.admitted| && s.admitted[k] == (m, s.entries[m]);
          assert t.admitted[k] == s.admitted[k];
        }
      }
    }
  }

  lemma {:induction false} BackedAlong(c: RateLimit, s: Window, events: seq<Event>, t: Window)
    requires Backed(s) && Leads(c, s, events, t) && forall i :: 0 <= i < |events| ==> !events[i].RemoveLost?
    ensures Backed(t)
    decreases |events|
  {
    if events != [] {
      StepBacked(c, s, events[0]);
      BackedAlong(c, Step(c, s, events[0]), events[1..], t);
    }
  }

  /** In every run in which no removal is lost, a hit that finds no removal outstanding is admitted exactly if fewer
      than `limit` hits were admitted in the last `window` seconds. */
  lemma AdmittedIff(c: RateLimit, events: seq<Event>, s: Window, member: Id, now: real)
    requires c.window >= 0 && Leads(c, Start(), events, s) && Possible(c, s, Hit(member, now))
    requires s.rejected == {} && forall i :: 0 <= i < |events| ==> !events[i].RemoveLost?
    ensures Step(c, s, Hit(member, now)).admitted == s.admitted + [(member, now)]
       <==> |Recent(c, s.admitted, now)| < c.limit
  {
    InvAlong(c, Start(), events, s);
    BackedAlong(c, Start(), events, s);
    var recent := Recent(c, s.admitted, now);
    CountedAreRecent(c, s, member, now);
    NamesSize(s.admitted, recent);
    assert |Counted(c, s.entries, member, now).Keys| == 1 + |recent|;
  }

  lemma CountedAreRecent(c: RateLimit, s: Window, member: Id, now: real)
    requires InOrder(s) && Remembered(c, s) && Backed(s) && s.rejected == {} && Possible(c, s, Hit(member, now))
    ensures var names := Names(s.admitted, Recent(c, s.admitted, now));
            Counted(c, s.entries, member, now).Keys == names + {member} && member !in names
  {
    var names := Names(s.admitted, Recent(c, s.admitted, now));
    forall m | m in Counted(c, s.entries, member, now) && m != member ensures m in names {
      var k: nat :| k < |s.admitted| && s.admitted[k] == (m, s.entries[m]);
      assert k in Recent(c, s.admitted, now);
    }
  }

  ghost function Names(admitted: seq<(Id, real)>, ks: set<nat>): set<Id>
    requires forall k :: k in ks ==> k < |admitted|
  {
    set k | k in ks :: admitted[k].0
  }

  lemma {:induction false} NamesSize(admitted: seq<(Id, real)>, ks: set<nat>)
    requires forall i, j :: 0 <= i < j < |admitted| ==> admitted[i].0 != admitted[j].0
    requires forall k :: k in ks ==> k < |admitted|
    ensures |Names(admitted, ks)| == |ks|
    decreases ks
  {
    if ks != {} {
      var k :| k in ks;
      NamesSize(admitted, ks - {k});
      NamesWithout(admitted, ks, k);
      hide Names;
    }
  }

  lemma NamesWithout(admitted: seq<(Id, real)>, ks: set<nat>, k: nat)
    requires forall i, j :: 0 <= i < j < |admitted| ==> admitted[i].0 != admitted[j].0
    requires k in ks && forall k :: k in ks ==> k < |admitted|
    ensures var fewer := Names(admitted, ks - {k});
            Names(admitted, ks) == fewer + {admitted[k].0} && admitted[k].0 !in fewer
  {
    forall id | id in Names(admitted, ks) && id != admitted[k].0 ensures id in Names(admitted, ks - {k}) {
      var j :| j in ks && admitted[j].0 == id;
      assert j in ks - {k};
    }
  }

  // ----- one hit at a time -----

  ghost predicate IsOldest(entries: map<Id, real>, score: real) {
    && (exists m :: m in entries && entries[m] == score)
    && (forall m :: m in entries ==> score <= entries[m])
  }

  ghost predicate IsNewest(entries: map<Id, real>, score: real) {
    && (exists m :: m in entries && entries[m] == score)
    && (forall m :: m in entries ==> entries[m] <= score)
  }

  /** `math.ceil`. */
  function Ceil(x: real): int {
    -((-x).Floor)
  }

  /** Run one at a time, with every rejected member removed again, the set never holds more than `limit`. */
  ghost predicate Settled(c: RateLimit, entries: map<Id, real>, clock: real) {
    |entries| <= c.limit && forall m :: m in entries ==> entries[m] <= clock
  }

  /** The least score: what `ZRANGE key 0 0 WITHSCORES` returns. */
  lemma {:induction false} OldestExists(entries: map<Id, real>) returns (m: Id)
    requires entries != map[]
    ensures m in entries && IsOldest(entries, entries[m])
    decreases |entries|
  {
    var x :| x in entries;
    var rest := entries - {x};
    if rest == map[] {
      m := x;
      forall y | y in entries ensures y == x { assert y != x ==> y in rest; }
    } else {
      assert |rest| < |entries| by {
        assert entries.Keys == rest.Keys + {x};
      }
      var y := OldestExists(rest);
      m := if entries[x] <= entries[y] then x else y;
      forall z | z in entries ensures entries[m] <= entries[z] { assert z != x ==> z in rest; }
    }
  }

  class Limiter {
    const c: RateLimit
    var entries: map<Id, real>
    ghost var clock: real

    ghost predicate Valid()
      reads this
    {
      Settled(c, entries, clock)
    }

    constructor (limit: RateLimit)
      ensures Valid() && c == limit && entries == map[] && clock == 0.0
    {
      c, entries, clock := limit, map[], 0.0;
    }

    /** `hit` without interference. `retryAfter` is 0 for an admitted hit. */
    method Hit(member: Id, now: real) returns (allowed: bool, retryAfter: int)
      requires Valid() && clock <= now && member !in entries
      modifies this
      ensures Valid() && clock == now
      ensures allowed <==> Admits(c, old(entries), member, now)
      ensures allowed ==> entries == Counted(c, old(entries), member, now) && retryAfter == 0
      ensures !allowed ==> entries == Trim(old(entries), now - c.window as real)
      ensures !allowed && c.limit > 0 ==> LeastWait(c, entries, now, retryAfter)
      ensures c.limit == 0 ==> !allowed && retryAfter == AtLeastOne(c.window) && NeverAgain(c, entries)
    {
      clock := now;
      RejectedIsFull(c, entries, member, now);
      entries := Counted(c, entries, member, now);
      if |entries| <= c.limit {
        return true, 0;
      }
      entries := entries - {member};
      if entries == map[] {
        NothingAdmitted(c, entries);
        retryAfter := c.window;
      } else {
        ghost var least := OldestExists(entries);
        var oldest :| oldest in entries && forall m :: m in entries ==> entries[oldest] <= entries[m];
        retryAfter := Ceil(entries[oldest] + c.window as real - now);
        WaitForOldest(c, entries, now, entries[oldest]);
      }
      allowed, retryAfter := false, AtLeastOne(retryAfter);
    }
  }

  /** `max(retry_after, 1)`. */
  function AtLeastOne(seconds: int): int {
    if seconds >= 1 then seconds else 1
  }

  /** No hit is admitted at any later time. */
  ghost predicate NeverAgain(c: RateLimit, entries: map<Id, real>) {
    forall next: Id, time: real :: !Admits(c, entries, next, time)
  }

  /** A limit of zero admits nothing. */
  lemma NothingAdmitted(c: RateLimit, entries: map<Id, real>)
    ensures c.limit == 0 ==> NeverAgain(c, entries)
  {
    forall next: Id, time: real ensures |Counted(c, entries, next, time)| > 0 {
      assert next in Counted(c, entries, next, time);
    }
  }

  /** `wait` is the least whole number of seconds after which a hit is admitted, if none comes before it. */
  ghost predicate LeastWait(c: RateLimit, entries: map<Id, real>, now: real, wait: int) {
    forall next: Id, seconds: nat :: next !in entries ==>
      (AdmitsAfter(c, entries, next, now, seconds) <==> seconds >= wait)
  }

  predicate AdmitsAfter(c: RateLimit, entries: map<Id, real>, next: Id, now: real, seconds: nat) {
    Admits(c, entries, next, now + seconds as real)
  }

  lemma WaitForOldest(c: RateLimit, entries: map<Id, real>, now: real, oldest: real)
    requires |entries| == c.limit && IsOldest(entries, oldest) && oldest > now - c.window as real
    ensures Ceil(oldest + c.window as real - now) >= 1
    ensures LeastWait(c, entries, now, Ceil(oldest + c.window as real - now))
  {
    forall next: Id, seconds: nat | next !in entries
      ensures AdmitsAfter(c, entries, next, now, seconds) <==> seconds >= Ceil(oldest + c.window as real - now)
    {
      RetryAdmitted(c, entries, oldest, next, now + seconds as real);
    }
  }

  /** A rejected hit leaves exactly `limit` members, all of them inside the window. */
  lemma RejectedIsFull(c: RateLimit, entries: map<Id, real>, member: Id, now: real)
    requires |entries| <= c.limit && member !in entries
    ensures var kept := Trim(entries, now - c.window as real);
            && Counted(c, entries, member, now) - {member} == kept
            && |kept| <= c.limit
            && (!Admits(c, entries, member, now) ==> |kept| == c.limit)
  {
    var kept := Trim(entries, now - c.window as real);
    SubsetSize(kept.Keys, entries.Keys);
    assert Counted(c, entries, member, now).Keys == kept.Keys + {member};
  }

  /** With `limit` members inside the window, one more is admitted exactly from the moment the oldest leaves it. */
  lemma RetryAdmitted(c: RateLimit, entries: map<Id, real>, oldest: real, next: Id, time: real)
    requires |entries| == c.limit && IsOldest(entries, oldest) && next !in entries
    ensures Admits(c, entries, next, time) <==> oldest + c.window as real <= time
  {
    var until := time - c.window as real;
    var kept := Trim(entries, until);
    assert Counted(c, entries, next, time).Keys == kept.Keys + {next};
    if oldest > until {
      assert kept == entries;
    } else {
      var m :| m in entries && entries[m] == oldest;
      SubsetSize(kept.Keys, entries.Keys - {m});
    }
  }

  /** The comment on `hit` promises access "exactly window seconds after the last allowed request". That is when access
      returns iff the oldest and the newest request in the window were made at the same moment, as they always are with
      a limit of one; otherwise access returns earlier. */
  lemma DocumentedRetry(c: RateLimit, entries: map<Id, real>, oldest: real, newest: real)
    requires |entries| == c.limit && IsOldest(entries, oldest) && IsNewest(entries, newest)
    ensures (forall next: Id, time: real :: next !in entries ==>
               (Admits(c, entries, next, time) <==> newest + c.window as real <= time))
       <==> oldest == newest
    ensures c.limit == 1 ==> oldest == newest
  {
    forall next: Id, time: real | next !in entries
      ensures Admits(c, entries, next, time) <==> oldest + c.window as real <= time
    {
      RetryAdmitted(c, entries, oldest, next, time);
    }
    var a :| a in entries && entries[a] == oldest;
    var b :| b in entries && entries[b] == newest;
    if c.limit == 1 && a != b {
      SubsetSize({a, b}, entries.Keys);
    }
    if oldest != newest {
      var next := FreshId(entries.Keys);
      assert Admits(c, entries, next, oldest + c.window as real);
    }
  }

  lemma {:induction false} FreshId(used: set<Id>) returns (id: Id)
    ensures id !in used
  {
    if forall k :: k in Range(|used| + 1) ==> k in used {
      RangeSize(|used| + 1);
      SubsetSize(Range(|used| + 1), used);
    }
    id :| id !in used;
  }

  /** A limit of two per minute: requests at 0 and 10 are admitted, one at 20 is not, and access is back at 60, not
      70. */
  lemma DocumentedRetryFails()
    ensures var c, entries := RateLimit(2, 60), map[0 := 0.0, 1 := 10.0];
            && Admits(c, map[], 0, 0.0) && Admits(c, map[0 := 0.0], 1, 10.0)
            && !Admits(c, entries, 2, 20.0) && Admits(c, entries, 2, 60.0)
  {
    var c, entries := RateLimit(2, 60), map[0 := 0.0, 1 := 10.0];
    assert Counted(c, map[], 0, 0.0) == map[0 := 0.0];
    assert Counted(c, map[0 := 0.0], 1, 10.0) == entries;
    assert IsOldest(entries, 0.0) by { assert 0 in entries; }
    RetryAdmitted(c, entries, 0.0, 2, 20.0);
    RetryAdmitted(c, entries, 0.0, 2, 60.0);
  }
}
