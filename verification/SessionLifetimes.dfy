/** What a client of the session service can rely on: how long tokens work, what ends them, and what a request that ends
    a session leaves alone. Times are those of the events, not of any field. */
module SessionLifetimes {
  import opened Wrappers
  import opened SessionStore
  import opened SessionFamilies

  // ----- how long tokens work -----

  /** The event issues the refresh token in the family, and with it an access token. */
  predicate Issues(c: Settings, s: Sessions, e: Event, id: Id, family: Id) {
    match e
    case Login(first, _, f) => first == id && f == family
    case Refresh(previous, successor, accountOk) =>
      && successor == id && Refreshed(c, s, previous, successor, accountOk).1 == Issued
      && previous in s.tokens && s.tokens[previous].family == family
    case _ => false
  }

  lemma TokenStays(c: Settings, s: Sessions, e: Event, id: Id)
    requires Possible(s, e) && id in s.tokens
    ensures id in Step(c, s, e).tokens && Step(c, s, e).tokens[id].expiresAt == s.tokens[id].expiresAt
    ensures Step(c, s, e).tokens[id].family == s.tokens[id].family
  {
    EventKinds(c, s, e);
  }

  lemma {:induction false} TokenAlong(c: Settings, s: Sessions, events: seq<Event>, t: Sessions, id: Id)
    requires Leads(c, s, events, t) && id in s.tokens
    ensures id in t.tokens && t.tokens[id].expiresAt == s.tokens[id].expiresAt
    ensures t.tokens[id].family == s.tokens[id].family
    decreases |events|
  {
    if events != [] {
      TokenStays(c, s, events[0], id);
      TokenAlong(c, Step(c, s, events[0]), events[1..], t, id);
    }
  }

  lemma IssuedLives(c: Settings, s: Sessions, e: Event, id: Id, family: Id)
    requires Possible(s, e) && Issues(c, s, e, id, family)
    ensures var u := Step(c, s, e);
      id in u.tokens && u.tokens[id].family == family && u.tokens[id].expiresAt == s.now + c.refreshLife
      && u.tokens[id].revokedAt.None? && Access(family, s.now) in u.issued
  {
  }

  /** A refresh token works from the moment it is issued until `refreshLife` seconds later, unless it was revoked or its
      account is not available any more; a token that ran out is reported as expired and changes nothing. */
  lemma RefreshWorksIff(c: Settings, s: Sessions, e: Event, id: Id, family: Id, events: seq<Event>, t: Sessions,
                        next: Id, accountOk: bool)
    requires Possible(s, e) && Issues(c, s, e, id, family) && Leads(c, Step(c, s, e), events, t)
    ensures id in t.tokens
    ensures var (u, outcome) := Refreshed(c, t, id, next, accountOk);
      && (outcome == Issued <==> t.tokens[id].revokedAt.None? && accountOk && t.now < s.now + c.refreshLife)
      && (outcome == REFRESH_TOKEN_EXPIRED <==> t.tokens[id].revokedAt.None? && t.now >= s.now + c.refreshLife)
      && (outcome == REFRESH_TOKEN_EXPIRED ==> u == t)
  {
    IssuedLives(c, s, e, id, family);
    TokenAlong(c, Step(c, s, e), events, t, id);
  }

  /** A token that was refreshed with success: presented again within the grace period, counted from that moment, it
      changes nothing; presented later, it kills its family. */
  lemma ReplayAfterRefresh(c: Settings, s: Sessions, id: Id, successor: Id, events: seq<Event>, t: Sessions, next: Id,
                           accountOk: bool)
    requires Reachable(c, s) && Possible(s, Refresh(id, successor, true))
    requires Refreshed(c, s, id, successor, true).1 == Issued
    requires Leads(c, Step(c, s, Refresh(id, successor, true)), events, t)
    ensures var ((u, outcome), family) := (Refreshed(c, t, id, next, accountOk), s.tokens[id].family);
      if t.now - s.now <= c.grace then u == t && outcome == REFRESH_TOKEN_RACE
      else outcome == REFRESH_TOKEN_REUSED && Ends(t, u, family) && Dead(u, family)
  {
    var rotated := Step(c, s, Refresh(id, successor, true));
    RevokedAlong(c, rotated, events, t, id);
    KnownAfter(c, s, Refresh(id, successor, true), events, t, s.tokens[id].family);
    EndsFamily(t, s.tokens[id].family, REUSE_DETECTED);
  }

  lemma KnownAfter(c: Settings, s: Sessions, e: Event, events: seq<Event>, t: Sessions, family: Id)
    requires Reachable(c, s) && Possible(s, e) && Leads(c, Step(c, s, e), events, t)
    requires exists id :: id in s.tokens && s.tokens[id].family == family
    ensures family in t.history
  {
    ReachableInv(c, s);
    var id :| id in s.tokens && s.tokens[id].family == family;
    KnownFamily(s, id);
    HistoryGrows(c, s, e);
    HistoryAlong(c, Step(c, s, e), events, t);
  }

  lemma {:induction false} HistoryAlong(c: Settings, s: Sessions, events: seq<Event>, t: Sessions)
    requires Leads(c, s, events, t)
    ensures s.history.Keys <= t.history.Keys && s.now <= t.now
    ensures s.issued <= t.issued
    decreases |events|
  {
    if events != [] {
      HistoryGrows(c, s, events[0]);
      HistoryAlong(c, Step(c, s, events[0]), events[1..], t);
    }
  }

  lemma {:induction false} DeniedIff(c: Settings, s: Sessions, events: seq<Event>, t: Sessions, family: Id)
    requires Leads(c, s, events, t)
    ensures family in t.denied <==> family in s.denied || DenyWritten(family) in events
    decreases |events|
  {
    if events != [] {
      DeniedIff(c, Step(c, s, events[0]), events[1..], t, family);
      assert DenyWritten(family) in events <==> events[0] == DenyWritten(family) || DenyWritten(family) in events[1..];
    }
  }

  lemma NotDeniedYet(c: Settings, s: Sessions, e: Event, id: Id, family: Id)
    requires Inv(c, s) && Possible(s, e) && Issues(c, s, e, id, family)
    ensures family !in Step(c, s, e).denied
  {
    if e.Refresh? { assert !Dead(s, family); }
  }

  /** The access token handed out with a refresh token is accepted for `accessLife` seconds, up to the moment when a
      denylist write of its family is done, and never again after that. */
  lemma AccessAcceptedIff(c: Settings, s: Sessions, e: Event, id: Id, family: Id, events: seq<Event>, t: Sessions)
    requires Reachable(c, s) && Possible(s, e) && Issues(c, s, e, id, family) && Leads(c, Step(c, s, e), events, t)
    ensures Accepted(c, t, Access(family, s.now))
       <==> t.now < s.now + c.accessLife && DenyWritten(family) !in events
  {
    var u := Step(c, s, e);
    ReachableInv(c, s);
    FamiliesKeep(c, s, e);
    DenialsKeep(c, s, e);
    InvAlong(c, u, events, t);
    IssuedLives(c, s, e, id, family);
    HistoryAlong(c, u, events, t);
    NotDeniedYet(c, s, e, id, family);
    DeniedIff(c, u, events, t, family);
    hide FamiliesFit, Dead, Step, Leads;
  }

  // ----- what ends a session, and what is left alone -----

  /** The request revoked the family and asked for its denylist write, and left everything else alone. */
  ghost predicate Ends(s: Sessions, t: Sessions, family: Id) {
    && family in t.pending && t.pending == s.pending + {family}
    && t.tokens.Keys == s.tokens.Keys && t.history == s.history && t.issued == s.issued && t.denied == s.denied
    && t.now == s.now
    && (forall id :: id in s.tokens && s.tokens[id].family != family ==> t.tokens[id] == s.tokens[id])
    && (forall id :: id in s.tokens && s.tokens[id].family == family ==> t.tokens[id].revokedAt.Some?)
    && (forall id :: id in s.tokens && s.tokens[id].revokedAt.Some? ==> t.tokens[id] == s.tokens[id])
  }

  lemma EndsFamily(s: Sessions, family: Id, reason: Reason)
    ensures Ends(s, RevokeFamily(s, family, reason), family)
    ensures family in s.history ==> Dead(RevokeFamily(s, family, reason), family)
  {
    var t := RevokeFamily(s, family, reason);
    forall id | id in s.tokens && s.tokens[id].family == family ensures t.tokens[id].revokedAt.Some? {}
  }

  /** Logging out with a known token ends its family; with an unknown one nothing happens. */
  lemma LogoutEnds(c: Settings, s: Sessions, id: Id)
    requires Reachable(c, s)
    ensures id in s.tokens ==>
      Ends(s, LoggedOut(s, id), s.tokens[id].family) && Dead(LoggedOut(s, id), s.tokens[id].family)
    ensures id !in s.tokens ==> LoggedOut(s, id) == s
  {
    if id in s.tokens {
      ReachableInv(c, s);
      KnownFamily(s, id);
      EndsFamily(s, s.tokens[id].family, LOGOUT);
    }
  }

  /** A user can end exactly the families that hold a token of theirs. */
  lemma RevokeSessionEnds(c: Settings, s: Sessions, user: Id, family: Id)
    requires Reachable(c, s)
    ensures var (t, outcome) := SessionRevoked(s, user, family);
      if exists id :: id in s.tokens && s.tokens[id].family == family && s.tokens[id].user == user
      then outcome == Done && Ends(s, t, family) && Dead(t, family)
      else outcome == SESSION_NOT_FOUND && t == s
  {
    if id :| id in s.tokens && s.tokens[id].family == family && s.tokens[id].user == user {
      ReachableInv(c, s);
      KnownFamily(s, id);
      EndsFamily(s, family, SESSION_REVOKED);
    }
  }

  lemma UnavailableRevokes(c: Settings, s: Sessions, id: Id, successor: Id)
    requires Refreshed(c, s, id, successor, true).1 == Issued
    ensures id in s.tokens
    ensures Refreshed(c, s, id, successor, false)
         == (RevokeFamily(s, s.tokens[id].family, SESSION_REVOKED), ACCOUNT_UNAVAILABLE)
  {
    hide RevokeFamily, IssueSession, Rotate;
  }

  /** Refreshing for an account that is gone ends the family of a token that would have worked. */
  lemma UnavailableEnds(c: Settings, s: Sessions, id: Id, successor: Id)
    requires Reachable(c, s) && Refreshed(c, s, id, successor, true).1 == Issued
    ensures var (t, outcome) := Refreshed(c, s, id, successor, false);
      outcome == ACCOUNT_UNAVAILABLE && Ends(s, t, s.tokens[id].family) && Dead(t, s.tokens[id].family)
  {
    UnavailableRevokes(c, s, id, successor);
    ReachableInv(c, s);
    KnownFamily(s, id);
    EndsFamily(s, s.tokens[id].family, SESSION_REVOKED);
    hide Refreshed, RevokeFamily, Ends, Dead, Inv;
  }

  /** Resetting a password ends every family of the user that still had a live token, and touches nobody else's. */
  lemma ResetEnds(c: Settings, s: Sessions, user: Id)
    requires Reachable(c, s)
    ensures var t := RevokeAll(s, user, PASSWORD_RESET);
      && t.tokens.Keys == s.tokens.Keys && t.issued == s.issued && t.denied == s.denied && t.now == s.now
      && (forall id :: id in s.tokens && s.tokens[id].user == user ==> t.tokens[id].revokedAt.Some?)
      && (forall id :: id in s.tokens && (s.tokens[id].user != user || s.tokens[id].revokedAt.Some?) ==>
            t.tokens[id] == s.tokens[id])
      && (forall id :: id in s.tokens && s.tokens[id].user == user && s.tokens[id].revokedAt.None? ==>
            s.tokens[id].family in t.pending && Dead(t, s.tokens[id].family))
      && (forall f :: f in t.pending && f !in s.pending ==>
            exists id :: id in s.tokens && s.tokens[id].family == f && s.tokens[id].user == user)
  {
    ReachableInv(c, s);
    forall id | id in s.tokens && s.tokens[id].user == user && s.tokens[id].revokedAt.None?
      ensures Dead(RevokeAll(s, user, PASSWORD_RESET), s.tokens[id].family)
    {
      RevokeAllKills(s, user, PASSWORD_RESET, s.tokens[id].family);
    }
  }

  /** A token nobody was ever given is refused and changes nothing, and so is one revoked but never replaced. */
  lemma OthersRefused(c: Settings, s: Sessions, id: Id, successor: Id, accountOk: bool)
    requires Reachable(c, s)
    requires id !in s.tokens || (s.tokens[id].revokedAt.Some? && s.tokens[id].replacedBy.None?)
    ensures Refreshed(c, s, id, successor, accountOk) == (s, REFRESH_TOKEN_INVALID)
  {
    ReachableInv(c, s);
    if id in s.tokens {
      assert Listed(s, id);
      var chain := s.history[s.tokens[id].family];
      assert IsChain(s.tokens, s.tokens[id].family, chain);
      var k :| 0 <= k < |chain| && chain[k] == id;
      assert k < |chain| - 1 ==> Rotated(s.tokens[chain[k]], chain[k + 1]);
    }
  }
}
