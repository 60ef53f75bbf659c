/** Login sessions: refresh tokens that rotate inside a family, and the denylist for the access tokens of families that
    were revoked. A request's database transaction is one step, its denylist write a later one. */
module SessionStore {
  import opened Wrappers

  type Id = nat

  datatype Reason = ROTATED | LOGOUT | REUSE_DETECTED | PASSWORD_RESET | SESSION_REVOKED

  datatype Token = Token(user: Id, family: Id, expiresAt: int, revokedAt: Option<int>, reason: Option<Reason>,
                         replacedBy: Option<Id>)

  /** An access token names its family and expires `accessLife` seconds after it was issued. */
  datatype Access = Access(family: Id, issuedAt: int)

  datatype Settings = Settings(grace: nat, accessLife: nat, refreshLife: nat)

  /** `tokens` is the table; `history` lists the tokens of each family in the order they were issued; `issued` the
      access tokens handed out; `denied` when each denylist entry runs out; `pending` the families whose revocation is
      committed and whose denylist write is still to come. */
  datatype Sessions = Sessions(
    now: int,
    tokens: map<Id, Token>,
    history: map<Id, seq<Id>>,
    issued: set<Access>,
    denied: map<Id, int>,
    pending: set<Id>)

  datatype Outcome =
    | Issued
    | REFRESH_TOKEN_INVALID
    | REFRESH_TOKEN_EXPIRED
    | REFRESH_TOKEN_RACE
    | REFRESH_TOKEN_REUSED
    | ACCOUNT_UNAVAILABLE
    | SESSION_NOT_FOUND
    | Done

  // ----- statements -----

  /** `_issue_session`. */
  function IssueSession(c: Settings, s: Sessions, id: Id, user: Id, family: Id): Sessions {
    s.(tokens := s.tokens[id := Token(user, family, s.now + c.refreshLife, None, None, None)],
       history := s.history[family := (if family in s.history then s.history[family] else []) + [id]],
       issued := s.issued + {Access(family, s.now)})
  }

  /** `_revoke_family`: only tokens not yet revoked are touched. */
  function RevokeFamily(s: Sessions, family: Id, reason: Reason): Sessions {
    s.(tokens := map id | id in s.tokens ::
         if s.tokens[id].family == family && s.tokens[id].revokedAt.None?
         then s.tokens[id].(revokedAt := Some(s.now), reason := Some(reason)) else s.tokens[id],
       pending := s.pending + {family})
  }

  /** The families `_revoke_all_sessions` returns. */
  function LiveFamilies(s: Sessions, user: Id): set<Id> {
    set id | id in s.tokens && s.tokens[id].user == user && s.tokens[id].revokedAt.None? :: s.tokens[id].family
  }

  function RevokeAll(s: Sessions, user: Id, reason: Reason): Sessions {
    s.(tokens := map id | id in s.tokens ::
         if s.tokens[id].user == user && s.tokens[id].revokedAt.None?
         then s.tokens[id].(revokedAt := Some(s.now), reason := Some(reason)) else s.tokens[id],
       pending := s.pending + LiveFamilies(s, user))
  }

  /** The rotated token points at its successor. */
  function Rotate(s: Sessions, id: Id, successor: Id): Sessions
    requires id in s.tokens
  {
    s.(tokens := s.tokens[id :=
         s.tokens[id].(revokedAt := Some(s.now), reason := Some(ROTATED), replacedBy := Some(successor))])
  }

  // ----- requests -----

  /** `refresh`, with `_handle_revoked_token`. */
  function Refreshed(c: Settings, s: Sessions, id: Id, successor: Id, accountOk: bool): (Sessions, Outcome) {
    if id !in s.tokens then (s, REFRESH_TOKEN_INVALID)
    else
      var t := s.tokens[id];
      if t.revokedAt.Some? then
        if t.reason != Some(ROTATED) then (s, REFRESH_TOKEN_INVALID)
        else if s.now - t.revokedAt.value <= c.grace then (s, REFRESH_TOKEN_RACE)
        else (RevokeFamily(s, t.family, REUSE_DETECTED), REFRESH_TOKEN_REUSED)
      else if t.expiresAt <= s.now then (s, REFRESH_TOKEN_EXPIRED)
      else if !accountOk then (RevokeFamily(s, t.family, SESSION_REVOKED), ACCOUNT_UNAVAILABLE)
      else (Rotate(IssueSession(c, s, successor, t.user, t.family), id, successor), Issued)
  }

  function LoggedOut(s: Sessions, id: Id): Sessions {
    if id in s.tokens then RevokeFamily(s, s.tokens[id].family, LOGOUT) else s
  }

  predicate Owns(s: Sessions, user: Id, family: Id) {
    exists id :: id in s.tokens && s.tokens[id].family == family && s.tokens[id].user == user
  }

  function SessionRevoked(s: Sessions, user: Id, family: Id): (Sessions, Outcome) {
    if Owns(s, user, family) then (RevokeFamily(s, family, SESSION_REVOKED), Done) else (s, SESSION_NOT_FOUND)
  }

  /** `_deny_access_tokens` for one family. */
  function Denied(c: Settings, s: Sessions, family: Id): Sessions {
    s.(denied := s.denied[family := s.now + c.accessLife + 5], pending := s.pending - {family})
  }

  /** `is_session_revoked`. */
  predicate IsSessionRevoked(s: Sessions, family: Id) {
    family in s.denied && s.now < s.denied[family]
  }

  /** The access token is accepted: not expired, and its session not denied. */
  predicate Accepted(c: Settings, s: Sessions, a: Access) {
    a in s.issued && s.now < a.issuedAt + c.accessLife && !IsSessionRevoked(s, a.family)
  }

  /** The service as it runs: the same requests on shared, mutable state. */
  class AuthService {
    const settings: Settings
    var now: int
    var tokens: map<Id, Token>
    var denied: map<Id, int>
    ghost var history: map<Id, seq<Id>>
    ghost var issued: set<Access>
    ghost var pending: set<Id>

    ghost function State(): Sessions
      reads this
    {
      Sessions(now, tokens, history, issued, denied, pending)
    }

    constructor (c: Settings)
      ensures settings == c && State() == Sessions(0, map[], map[], {}, map[], {})
    {
      settings, now, tokens, denied := c, 0, map[], map[];
      history, issued, pending := map[], {}, {};
    }

    method Issue(id: Id, user: Id, family: Id)
      modifies this
      ensures State() == IssueSession(settings, old(State()), id, user, family)
    {
      tokens := tokens[id := Token(user, family, now + settings.refreshLife, None, None, None)];
      history := history[family := (if family in history then history[family] else []) + [id]];
      issued := issued + {Access(family, now)};
    }

    method Revoke(family: Id, reason: Reason)
      modifies this
      ensures State() == RevokeFamily(old(State()), family, reason)
    {
      tokens := map id | id in tokens ::
        if tokens[id].family == family && tokens[id].revokedAt.None?
        then tokens[id].(revokedAt := Some(now), reason := Some(reason)) else tokens[id];
      pending := pending + {family};
    }

    method RevokeAllSessions(user: Id, reason: Reason) returns (families: set<Id>)
      modifies this
      ensures families == LiveFamilies(old(State()), user)
      ensures State() == RevokeAll(old(State()), user, reason)
    {
      families := set id | id in tokens && tokens[id].user == user && tokens[id].revokedAt.None? :: tokens[id].family;
      tokens := map id | id in tokens ::
        if tokens[id].user == user && tokens[id].revokedAt.None?
        then tokens[id].(revokedAt := Some(now), reason := Some(reason)) else tokens[id];
      pending := pending + families;
    }

    /** The entry outlives every access token of the family that has been issued. */
    method DenyAccessTokens(family: Id)
      modifies this
      ensures State() == Denied(settings, old(State()), family)
      ensures forall a :: a in issued && a.family == family && a.issuedAt <= now ==>
        family in denied && a.issuedAt + settings.accessLife < denied[family]
    {
      denied := denied[family := now + settings.accessLife + 5];
      pending := pending - {family};
    }

    method HandleRevokedToken(id: Id) returns (outcome: Outcome)
      requires id in tokens && tokens[id].revokedAt.Some?
      modifies this
      ensures (State(), outcome) == Refreshed(settings, old(State()), id, 0, true)
    {
      var t := tokens[id];
      if t.reason != Some(ROTATED) {
        return REFRESH_TOKEN_INVALID;
      }
      if now - t.revokedAt.value <= settings.grace {
        return REFRESH_TOKEN_RACE;
      }
      Revoke(t.family, REUSE_DETECTED);
      return REFRESH_TOKEN_REUSED;
    }

    method Refresh(id: Id, successor: Id, accountOk: bool) returns (outcome: Outcome)
      requires id != successor
      modifies this
      ensures (State(), outcome) == Refreshed(settings, old(State()), id, successor, accountOk)
    {
      if id !in tokens {
        return REFRESH_TOKEN_INVALID;
      }
      var t := tokens[id];
      if t.revokedAt.Some? {
        outcome := HandleRevokedToken(id);
        return;
      }
      if t.expiresAt <= now {
        return REFRESH_TOKEN_EXPIRED;
      }
      if !accountOk {
        Revoke(t.family, SESSION_REVOKED);
        return ACCOUNT_UNAVAILABLE;
      }
      Issue(successor, t.user, t.family);
      tokens := tokens[id := t.(revokedAt := Some(now), reason := Some(ROTATED), replacedBy := Some(successor))];
      return Issued;
    }

    method Logout(id: Id)
      modifies this
      ensures State() == LoggedOut(old(State()), id)
    {
      if id in tokens {
        Revoke(tokens[id].family, LOGOUT);
      }
    }

    method RevokeSession(user: Id, family: Id) returns (outcome: Outcome)
      modifies this
      ensures (State(), outcome) == SessionRevoked(old(State()), user, family)
    {
      var owned := exists id :: id in tokens && tokens[id].family == family && tokens[id].user == user;
      if !owned {
        return SESSION_NOT_FOUND;
      }
      Revoke(family, SESSION_REVOKED);
      return Done;
    }
  }
}
