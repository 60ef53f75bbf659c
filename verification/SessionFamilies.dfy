/** What holds of token families in every run of the session service. */
module SessionFamilies {
  import opened Wrappers
  import opened SessionStore

  datatype Event =
    | Login(id: Id, user: Id, family: Id)
    | Refresh(id: Id, successor: Id, accountOk: bool)
    | Logout(id: Id)
    | RevokeSession(user: Id, family: Id)
    | ResetPassword(user: Id)
    | DenyWritten(family: Id)
    | DenyLost(family: Id)
    | Tick(to: int)

  /** New ids are new, the clock does not go back, and a denylist write follows a revocation. */
  predicate Possible(s: Sessions, e: Event) {
    match e
    case Login(id, user, family) => id !in s.tokens && family !in s.history
    case Refresh(id, successor, accountOk) => successor !in s.tokens && successor != id
    case Logout(id) => true
    case RevokeSession(user, family) => true
    case ResetPassword(user) => true
    case DenyWritten(family) => family in s.pending
    case DenyLost(family) => family in s.pending
    case Tick(to) => s.now <= to
  }

  function Step(c: Settings, s: Sessions, e: Event): Sessions {
    match e
    case Login(id, user, family) => IssueSession(c, s, id, user, family)
    case Refresh(id, successor, accountOk) => Refreshed(c, s, id, successor, accountOk).0
    case Logout(id) => LoggedOut(s, id)
    case RevokeSession(user, family) => SessionRevoked(s, user, family).0
    case ResetPassword(user) => RevokeAll(s, user, PASSWORD_RESET)
    case DenyWritten(family) => Denied(c, s, family)
    case DenyLost(family) => s.(pending := s.pending - {family})
    case Tick(to) => s.(now := to)
  }

  ghost predicate Leads(c: Settings, s: Sessions, events: seq<Event>, t: Sessions)
    decreases |events|
  {
    if events == [] then s == t
    else Possible(s, events[0]) && Leads(c, Step(c, s, events[0]), events[1..], t)
  }

  function Start(): Sessions {
    Sessions(0, map[], map[], {}, map[], {})
  }

  ghost predicate Reachable(c: Settings, s: Sessions) {
    exists events :: Leads(c, Start(), events, s)
  }

  // ----- families -----

  /** The tokens of a family form one chain: every token but the newest was rotated into the next one; the newest has
      no successor and is the only one that can be live. */
  ghost predicate IsChain(tokens: map<Id, Token>, family: Id, chain: seq<Id>) {
    && |chain| >= 1
    && (forall i :: 0 <= i < |chain| ==> chain[i] in tokens && tokens[chain[i]].family == family)
    && (forall i :: 0 <= i < |chain| ==> tokens[chain[i]].user == tokens[chain[0]].user)
    && (forall i, j :: 0 <= i < j < |chain| ==> chain[i] != chain[j])
    && (forall i :: 0 <= i < |chain| - 1 ==> Rotated(tokens[chain[i]], chain[i + 1]))
    && Newest(tokens[chain[|chain| - 1]])
  }

  predicate Rotated(t: Token, next: Id) {
    t.revokedAt.Some? && t.reason == Some(ROTATED) && t.replacedBy == Some(next)
  }

  predicate Newest(t: Token) {
    t.replacedBy == None && t.reason != Some(ROTATED) && (t.revokedAt.None? <==> t.reason.None?)
  }

  /** The family exists and has no live token. */
  ghost predicate Dead(s: Sessions, family: Id) {
    family in s.history && forall id :: id in s.tokens && s.tokens[id].family == family ==> s.tokens[id].revokedAt.Some?
  }

  ghost predicate Listed(s: Sessions, id: Id)
    requires id in s.tokens
  {
    s.tokens[id].family in s.history && id in s.history[s.tokens[id].family]
  }

  ghost predicate FamiliesFit(s: Sessions) {
    && (forall f :: f in s.history ==> IsChain(s.tokens, f, s.history[f]))
    && (forall id :: id in s.tokens ==> Listed(s, id))
  }

  ghost predicate DenialsFit(c: Settings, s: Sessions) {
    && (forall f :: f in s.pending ==> Dead(s, f))
    && (forall f :: f in s.denied ==> Dead(s, f))
    && (forall a :: a in s.issued ==> a.issuedAt <= s.now && a.family in s.history)
    && (forall a :: a in s.issued && a.family in s.denied ==> a.issuedAt + c.accessLife < s.denied[a.family])
  }

  ghost predicate Inv(c: Settings, s: Sessions) {
    FamiliesFit(s) && DenialsFit(c, s)
  }

  // ----- one statement at a time -----

  lemma IssueNewFamily(c: Settings, s: Sessions, id: Id, user: Id, family: Id)
    requires FamiliesFit(s) && id !in s.tokens && family !in s.history
    ensures FamiliesFit(IssueSession(c, s, id, user, family))
  {
    hide IsChain;
    var t := IssueSession(c, s, id, user, family);
    NewChain(t.tokens, family, id);
    assert t.history[family] == [id];
    forall f | f in t.history && f != family ensures IsChain(t.tokens, f, t.history[f]) {
      OtherChain(s.tokens, t.tokens, f, s.history[f], family);
    }
    forall x | x in t.tokens ensures Listed(t, x) {
      if x != id { assert Listed(s, x); }
    }
  }

  lemma NewChain(tokens: map<Id, Token>, family: Id, id: Id)
    requires id in tokens && tokens[id].family == family && Newest(tokens[id])
    ensures IsChain(tokens, family, [id])
  {
  }

  /** Rotation replaces the live end of a chain by a new live end. */
  lemma RotateChain(c: Settings, s: Sessions, id: Id, successor: Id)
    requires FamiliesFit(s) && id in s.tokens && successor !in s.tokens && s.tokens[id].revokedAt.None?
    ensures FamiliesFit(Rotate(IssueSession(c, s, successor, s.tokens[id].user, s.tokens[id].family), id, successor))
  {
    hide IsChain;
    var family := s.tokens[id].family;
    var t := Rotate(IssueSession(c, s, successor, s.tokens[id].user, family), id, successor);
    LiveIsLast(s, id);
    var chain := s.history[family];
    assert t.history == s.history[family := chain + [successor]];
    ExtendChain(s.tokens, t.tokens, family, chain, id, successor);
    forall f | f in t.history && f != family ensures IsChain(t.tokens, f, t.history[f]) {
      OtherChain(s.tokens, t.tokens, f, s.history[f], family);
    }
    forall x | x in t.tokens ensures Listed(t, x) {
      assert successor in chain + [successor];
      if x != successor {
        assert Listed(s, x);
        assert x in chain ==> x in chain + [successor];
      }
    }
  }

  lemma LiveIsLast(s: Sessions, id: Id)
    requires FamiliesFit(s) && id in s.tokens && s.tokens[id].revokedAt.None?
    ensures s.tokens[id].family in s.history
    ensures var chain := s.history[s.tokens[id].family]; chain != [] && chain[|chain| - 1] == id
  {
    assert Listed(s, id);
    var chain := s.history[s.tokens[id].family];
    assert IsChain(s.tokens, s.tokens[id].family, chain);
    var k :| 0 <= k < |chain| && chain[k] == id;
    assert k < |chain| - 1 ==> Rotated(s.tokens[chain[k]], chain[k + 1]);
  }

  lemma ExtendChain(was: map<Id, Token>, now: map<Id, Token>, family: Id, chain: seq<Id>, last: Id, successor: Id)
    requires IsChain(was, family, chain) && chain[|chain| - 1] == last && successor !in was
    requires forall id :: id in was && id != last ==> id in now && now[id] == was[id]
    requires last in now && Rotated(now[last], successor)
    requires now[last].user == was[last].user && now[last].family == family
    requires successor in now && Newest(now[successor])
    requires now[successor].family == family && now[successor].user == was[last].user
    ensures IsChain(now, family, chain + [successor])
  {
    var longer := chain + [successor];
    forall i | 0 <= i < |longer| - 1 ensures Rotated(now[longer[i]], longer[i + 1]) {
      if i < |chain| - 1 { assert Rotated(was[chain[i]], chain[i + 1]); }
    }
  }

  /** Changing tokens of another family leaves a chain as it was. */
  lemma OtherChain(was: map<Id, Token>, now: map<Id, Token>, family: Id, chain: seq<Id>, changed: Id)
    requires IsChain(was, family, chain) && family != changed
    requires forall id :: id in was && was[id].family == family ==> id in now && now[id] == was[id]
    ensures IsChain(now, family, chain)
  {
    forall i | 0 <= i < |chain| - 1 ensures Rotated(now[chain[i]], chain[i + 1]) {
      assert Rotated(was[chain[i]], chain[i + 1]);
    }
  }

  /** `now` is `was` with some live tokens revoked for a reason other than rotation. */
  ghost predicate SomeRevoked(was: map<Id, Token>, now: map<Id, Token>) {
    && was.Keys == now.Keys
    && forall id :: id in was ==> now[id] == was[id] || RevokedOnce(was[id], now[id])
  }

  predicate RevokedOnce(was: Token, now: Token) {
    && was.revokedAt.None? && now.revokedAt.Some? && now.reason.Some? && now.reason != Some(ROTATED)
    && now == was.(revokedAt := now.revokedAt, reason := now.reason)
  }

  /** Revoking live tokens keeps every chain. */
  lemma RevokeKeepsChains(s: Sessions, t: Sessions)
    requires FamiliesFit(s) && SomeRevoked(s.tokens, t.tokens) && t.history == s.history
    ensures FamiliesFit(t)
  {
    hide IsChain;
    forall f | f in t.history ensures IsChain(t.tokens, f, t.history[f]) {
      RevokeKeepsChain(s.tokens, t.tokens, f, s.history[f]);
    }
    forall id | id in t.tokens ensures Listed(t, id) { assert Listed(s, id); }
  }

  lemma RevokeKeepsChain(was: map<Id, Token>, now: map<Id, Token>, family: Id, chain: seq<Id>)
    requires IsChain(was, family, chain) && SomeRevoked(was, now)
    ensures IsChain(now, family, chain)
  {
    forall i | 0 <= i < |chain| - 1 ensures Rotated(now[chain[i]], chain[i + 1]) {
      assert Rotated(was[chain[i]], chain[i + 1]);
    }
  }

  lemma RevokeFamilyKills(s: Sessions, family: Id, reason: Reason)
    requires reason != ROTATED
    ensures var t := RevokeFamily(s, family, reason);
            SomeRevoked(s.tokens, t.tokens) && (family in s.history ==> Dead(t, family))
  {
  }

  lemma RevokeAllRevokes(s: Sessions, user: Id, reason: Reason)
    requires reason != ROTATED
    ensures SomeRevoked(s.tokens, RevokeAll(s, user, reason).tokens)
  {
  }

  /** All tokens of a family belong to one user, so resetting a password kills whole families. */
  lemma RevokeAllKills(s: Sessions, user: Id, reason: Reason, family: Id)
    requires FamiliesFit(s) && reason != ROTATED && family in LiveFamilies(s, user)
    ensures Dead(RevokeAll(s, user, reason), family)
  {
    var t := RevokeAll(s, user, reason);
    var live :| live in s.tokens && s.tokens[live].user == user && s.tokens[live].revokedAt.None?
                && s.tokens[live].family == family;
    assert Listed(s, live);
    forall id | id in t.tokens && t.tokens[id].family == family ensures t.tokens[id].revokedAt.Some? {
      SameUser(s, live, id);
    }
  }

  lemma SameUser(s: Sessions, a: Id, b: Id)
    requires FamiliesFit(s) && a in s.tokens && b in s.tokens && s.tokens[a].family == s.tokens[b].family
    ensures s.tokens[a].user == s.tokens[b].user
  {
    assert Listed(s, a) && Listed(s, b);
    assert IsChain(s.tokens, s.tokens[a].family, s.history[s.tokens[a].family]);
  }

  lemma DeadStays(s: Sessions, t: Sessions, family: Id)
    requires Dead(s, family) && (Quiet(s, t) || Revokes(s, t))
    ensures Unmoved(s, t, family)
  {
  }

  // ----- every event -----

  /** Neither tokens nor access tokens change. */
  ghost predicate Quiet(s: Sessions, t: Sessions) {
    t.tokens == s.tokens && t.history == s.history && t.issued == s.issued
  }

  ghost predicate Revokes(s: Sessions, t: Sessions) {
    SomeRevoked(s.tokens, t.tokens) && t.history == s.history && t.issued == s.issued
  }

  /** Whether the event rotates a live token. */
  predicate Rotates(s: Sessions, e: Event) {
    e.Refresh? && e.id in s.tokens && s.tokens[e.id].revokedAt.None? && s.now < s.tokens[e.id].expiresAt && e.accountOk
  }

  /** An event leaves the tokens alone, or revokes live ones, or opens a family, or rotates a live token. */
  lemma EventKinds(c: Settings, s: Sessions, e: Event)
    ensures !e.Login? && !Rotates(s, e) ==> Quiet(s, Step(c, s, e)) || Revokes(s, Step(c, s, e))
  {
    match e
    case Login(id, user, family) =>
    case Refresh(id, successor, accountOk) => RefreshKinds(c, s, id, successor, accountOk);
    case Logout(id) => if id in s.tokens { RevokeFamilyKills(s, s.tokens[id].family, LOGOUT); }
    case RevokeSession(user, family) => RevokeFamilyKills(s, family, SESSION_REVOKED);
    case ResetPassword(user) => RevokeAllRevokes(s, user, PASSWORD_RESET);
    case DenyWritten(family) =>
    case DenyLost(family) =>
    case Tick(to) =>
  }

  lemma RefreshKinds(c: Settings, s: Sessions, id: Id, successor: Id, accountOk: bool)
    ensures !Rotates(s, Refresh(id, successor, accountOk)) ==>
      var t := Refreshed(c, s, id, successor, accountOk).0; t == s || Revokes(s, t)
  {
    if id in s.tokens {
      RevokeFamilyKills(s, s.tokens[id].family, REUSE_DETECTED);
      RevokeFamilyKills(s, s.tokens[id].family, SESSION_REVOKED);
    }
  }

  lemma FamiliesKeep(c: Settings, s: Sessions, e: Event)
    requires FamiliesFit(s) && Possible(s, e)
    ensures FamiliesFit(Step(c, s, e))
  {
    var t := Step(c, s, e);
    if e.Login? {
      IssueNewFamily(c, s, e.id, e.user, e.family);
    } else if Rotates(s, e) {
      RotateChain(c, s, e.id, e.successor);
    } else {
      EventKinds(c, s, e);
      KindKeeps(s, t);
    }
  }

  lemma KindKeeps(s: Sessions, t: Sessions)
    requires FamiliesFit(s) && (Quiet(s, t) || Revokes(s, t))
    ensures FamiliesFit(t)
  {
    if Quiet(s, t) {
      forall id | id in t.tokens ensures Listed(t, id) { assert Listed(s, id); }
    } else {
      RevokeKeepsChains(s, t);
    }
  }

  /** A family without a live token keeps the very tokens it has, dead as they are. */
  ghost predicate Unmoved(s: Sessions, t: Sessions, family: Id) {
    && Dead(t, family) && family in s.history && t.history[family] == s.history[family]
    && (forall a :: a in t.issued && a.family == family ==> a in s.issued)
    && (forall id :: id in s.tokens && s.tokens[id].family == family ==> id in t.tokens && t.tokens[id] == s.tokens[id])
  }

  lemma DeadKeeps(c: Settings, s: Sessions, e: Event, family: Id)
    requires Possible(s, e) && Dead(s, family)
    ensures Unmoved(s, Step(c, s, e), family)
  {
    var t := Step(c, s, e);
    if !e.Login? && !Rotates(s, e) {
      EventKinds(c, s, e);
      DeadStays(s, t, family);
    }
  }

  /** What becomes pending is dead: its revocation is committed. */
  lemma NewlyDead(c: Settings, s: Sessions, e: Event, family: Id)
    requires FamiliesFit(s) && Possible(s, e) && family in Step(c, s, e).pending && family !in s.pending
    ensures Dead(Step(c, s, e), family)
  {
    hide FamiliesFit, Dead, Owns;
    match e
    case Login(_, _, _) =>
    case Refresh(id, successor, accountOk) =>
      KnownFamily(s, id);
      RevokeFamilyKills(s, family, REUSE_DETECTED);
      RevokeFamilyKills(s, family, SESSION_REVOKED);
    case Logout(id) =>
      KnownFamily(s, id);
      RevokeFamilyKills(s, family, LOGOUT);
    case RevokeSession(user, f) =>
      OwnedFamily(s, user, f);
      RevokeFamilyKills(s, family, SESSION_REVOKED);
    case ResetPassword(user) => RevokeAllKills(s, user, PASSWORD_RESET, family);
    case DenyWritten(_) =>
    case DenyLost(_) =>
    case Tick(_) =>
  }

  lemma KnownFamily(s: Sessions, id: Id)
    requires FamiliesFit(s) && id in s.tokens
    ensures s.tokens[id].family in s.history
  {
    assert Listed(s, id);
  }

  lemma OwnedFamily(s: Sessions, user: Id, family: Id)
    requires FamiliesFit(s) && Owns(s, user, family)
    ensures family in s.history
  {
    var id :| id in s.tokens && s.tokens[id].family == family && s.tokens[id].user == user;
    KnownFamily(s, id);
  }

  lemma NewAccess(c: Settings, s: Sessions, e: Event, a: Access)
    requires FamiliesFit(s) && Possible(s, e) && a in Step(c, s, e).issued && a !in s.issued
    ensures a.issuedAt == s.now == Step(c, s, e).now && a.family in Step(c, s, e).history
    ensures Step(c, s, e).denied == s.denied && !Dead(s, a.family)
  {
    EventKinds(c, s, e);
    if e.Refresh? { assert Listed(s, e.id); }
  }

  lemma HistoryGrows(c: Settings, s: Sessions, e: Event)
    requires Possible(s, e)
    ensures s.history.Keys <= Step(c, s, e).history.Keys && s.now <= Step(c, s, e).now
    ensures Step(c, s, e).denied == s.denied
         || (e.DenyWritten? && Step(c, s, e).denied == s.denied[e.family := s.now + c.accessLife + 5]
             && Step(c, s, e).issued == s.issued)
  {
  }

  lemma DenialsKeep(c: Settings, s: Sessions, e: Event)
    requires Inv(c, s) && Possible(s, e)
    ensures DenialsFit(c, Step(c, s, e))
  {
    hide Step, Dead, FamiliesFit;
    var t := Step(c, s, e);
    HistoryGrows(c, s, e);
    forall f | f in t.pending ensures Dead(t, f) {
      PendingDead(c, s, e, f);
    }
    forall f | f in t.denied ensures Dead(t, f) {
      DeadKeeps(c, s, e, f);
    }
    forall a | a in t.issued
      ensures a.issuedAt <= t.now && a.family in t.history
      ensures a.family in t.denied ==> a.issuedAt + c.accessLife < t.denied[a.family]
    {
      if a !in s.issued { NewAccess(c, s, e, a); }
    }
  }

  lemma PendingDead(c: Settings, s: Sessions, e: Event, f: Id)
    requires Inv(c, s) && Possible(s, e) && f in Step(c, s, e).pending
    ensures Dead(Step(c, s, e), f)
  {
    if f in s.pending {
      DeadKeeps(c, s, e, f);
    } else {
      NewlyDead(c, s, e, f);
    }
  }

  lemma {:induction false} InvAlong(c: Settings, s: Sessions, events: seq<Event>, t: Sessions)
    requires Inv(c, s) && Leads(c, s, events, t)
    ensures Inv(c, t)
    decreases |events|
  {
    if events != [] {
      FamiliesKeep(c, s, events[0]);
      DenialsKeep(c, s, events[0]);
      InvAlong(c, Step(c, s, events[0]), events[1..], t);
    }
  }

  lemma ReachableInv(c: Settings, s: Sessions)
    requires Reachable(c, s)
    ensures Inv(c, s)
  {
    var events :| Leads(c, Start(), events, s);
    InvAlong(c, Start(), events, s);
  }

  // ----- the promises -----

  /** In every run, a family's tokens form one chain in the order they were issued, and at most one of them is live. */
  lemma OneLiveToken(c: Settings, s: Sessions, family: Id)
    requires Reachable(c, s) && family in s.history
    ensures IsChain(s.tokens, family, s.history[family])
    ensures forall id :: id in s.tokens && s.tokens[id].family == family ==> id in s.history[family]
    ensures forall i, j :: (i in s.tokens && j in s.tokens && s.tokens[i].family == s.tokens[j].family == family
                            && s.tokens[i].revokedAt.None? && s.tokens[j].revokedAt.None?) ==> i == j
  {
    ReachableInv(c, s);
    forall id | id in s.tokens && s.tokens[id].family == family ensures id in s.history[family] {
      assert Listed(s, id);
    }
    forall i, j | i in s.tokens && j in s.tokens && s.tokens[i].family == s.tokens[j].family == family
      && s.tokens[i].revokedAt.None? && s.tokens[j].revokedAt.None? ensures i == j
    {
      LiveIsLast(s, i);
      LiveIsLast(s, j);
    }
  }

  /** Once dead, a family stays dead whatever happens next, is issued no further token of either kind, and none of its
      tokens changes again. */
  lemma DeadForever(c: Settings, s: Sessions, events: seq<Event>, t: Sessions, family: Id)
    requires Reachable(c, s) && Leads(c, s, events, t) && Dead(s, family)
    ensures Unmoved(s, t, family)
  {
    DeadAlong(c, s, events, t, family);
  }

  lemma {:induction false} DeadAlong(c: Settings, s: Sessions, events: seq<Event>, t: Sessions, family: Id)
    requires Leads(c, s, events, t) && Dead(s, family)
    ensures Unmoved(s, t, family)
    decreases |events|
  {
    if events != [] {
      DeadKeeps(c, s, events[0], family);
      DeadAlong(c, Step(c, s, events[0]), events[1..], t, family);
    }
  }

  /** Presenting a token that was rotated: within the grace period nothing changes, after it the whole family is dead
      and its denylist write is on its way. */
  lemma ReplayOfRotated(c: Settings, s: Sessions, id: Id, successor: Id, accountOk: bool)
    requires Reachable(c, s) && id in s.tokens && s.tokens[id].replacedBy.Some?
    ensures s.tokens[id].revokedAt.Some?
    ensures var (t, outcome) := Refreshed(c, s, id, successor, accountOk);
            if s.now - s.tokens[id].revokedAt.value <= c.grace then t == s && outcome == REFRESH_TOKEN_RACE
            else Dead(t, s.tokens[id].family) && s.tokens[id].family in t.pending && outcome == REFRESH_TOKEN_REUSED
  {
    ReachableInv(c, s);
    ReplacedIsRotated(s, id);
  }

  lemma ReplacedIsRotated(s: Sessions, id: Id)
    requires FamiliesFit(s) && id in s.tokens && s.tokens[id].replacedBy.Some?
    ensures s.tokens[id].revokedAt.Some? && s.tokens[id].reason == Some(ROTATED) && s.tokens[id].family in s.history
  {
    assert Listed(s, id);
    var chain := s.history[s.tokens[id].family];
    assert IsChain(s.tokens, s.tokens[id].family, chain);
    var k :| 0 <= k < |chain| && chain[k] == id;
    assert k < |chain| - 1 ==> Rotated(s.tokens[chain[k]], chain[k + 1]);
  }

  lemma RevokedKeeps(c: Settings, s: Sessions, e: Event, id: Id)
    requires Possible(s, e) && id in s.tokens && s.tokens[id].revokedAt.Some?
    ensures id in Step(c, s, e).tokens && Step(c, s, e).tokens[id] == s.tokens[id]
  {
    EventKinds(c, s, e);
  }

  lemma {:induction false} RevokedAlong(c: Settings, s: Sessions, events: seq<Event>, t: Sessions, id: Id)
    requires Leads(c, s, events, t) && id in s.tokens && s.tokens[id].revokedAt.Some?
    ensures id in t.tokens && t.tokens[id] == s.tokens[id]
    decreases |events|
  {
    if events != [] {
      RevokedKeeps(c, s, events[0], id);
      RevokedAlong(c, Step(c, s, events[0]), events[1..], t, id);
    }
  }

  /** A refresh token works at most once: presented with success, it never succeeds again, however late. */
  lemma RefreshOnlyOnce(c: Settings, s: Sessions, id: Id, successor: Id, events: seq<Event>, t: Sessions, next: Id,
                        accountOk: bool)
    requires Reachable(c, s) && Possible(s, Refresh(id, successor, true))
    requires Refreshed(c, s, id, successor, true).1 == Issued
    requires Leads(c, Step(c, s, Refresh(id, successor, true)), events, t)
    ensures Refreshed(c, t, id, next, accountOk).1 != Issued
  {
    RevokedAlong(c, Step(c, s, Refresh(id, successor, true)), events, t, id);
  }

  /** Once the denylist write of a family is done, no access token of that family is accepted, then or ever after. */
  lemma DeniedForever(c: Settings, s: Sessions, family: Id, events: seq<Event>, t: Sessions, a: Access)
    requires Reachable(c, s) && Possible(s, DenyWritten(family))
    requires Leads(c, Step(c, s, DenyWritten(family)), events, t)
    requires a.family == family
    ensures !Accepted(c, t, a)
  {
    ReachableInv(c, s);
    FamiliesKeep(c, s, DenyWritten(family));
    DenialsKeep(c, s, DenyWritten(family));
    InvAlong(c, Step(c, s, DenyWritten(family)), events, t);
    DeniedStays(c, Step(c, s, DenyWritten(family)), events, t, family);
  }

  lemma {:induction false} DeniedStays(c: Settings, s: Sessions, events: seq<Event>, t: Sessions, family: Id)
    requires Leads(c, s, events, t) && family in s.denied
    ensures family in t.denied
    decreases |events|
  {
    if events != [] { DeniedStays(c, Step(c, s, events[0]), events[1..], t, family); }
  }
}
