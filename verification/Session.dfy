// What the backend-for-frontend keeps for a login, and the selectors that name sets of logins.

module Session {
  import opened Clock
  import opened Wrappers

  type SessionId = nat
  type UserId = nat
  type Token = nat
  /** Hydra's `sid`, compared as text. */
  type LoginId = string

  /** Refreshing cannot keep a session alive beyond this. */
  const MAX_SESSION_LIFETIME: Duration := 30 * DAY

  datatype SessionData = SessionData(
    access: Token,
    refresh: Token,
    idToken: Token,
    expiresAt: Time,
    createdAt: Time,
    refreshExpiresAt: Time,
    user: UserId,
    sid: Option<LoginId>)
  {
    /** From here on no refresh helps. */
    function EndsAt(): (end: Time)
      ensures end <= createdAt + 30 * DAY && end <= refreshExpiresAt
      ensures end == refreshExpiresAt || end == createdAt + 30 * DAY
    {
      if refreshExpiresAt <= createdAt + MAX_SESSION_LIFETIME
      then refreshExpiresAt
      else createdAt + MAX_SESSION_LIFETIME
    }

    /** What the login decided and no refresh may change. */
    predicate SameLogin(other: SessionData) {
      && user == other.user
      && sid == other.sid
      && createdAt == other.createdAt
      && idToken == other.idToken
    }
  }

  /** A set of sessions, named by user, by login, or by both. */
  datatype Selector =
    | OfUser(user: UserId)
    | OfUserLogin(user: UserId, sid: LoginId)
    | OfLogin(sid: LoginId)
  {
    /** Where both are named, the user's sessions of unknown login are included. */
    predicate Matches(session: SessionData) {
      match this
      case OfUser(u) => session.user == u
      case OfUserLogin(u, s) => session.user == u && (session.sid.Some? ==> session.sid.value == s)
      case OfLogin(s) => session.sid == Some(s)
    }
  }

  /** Each selector matches the user's sessions, the login's, or those of the user that may be the login's. */
  lemma SelectorsMatch(session: SessionData, u: UserId, s: LoginId)
    ensures OfUser(u).Matches(session) <==> session.user == u
    ensures OfUserLogin(u, s).Matches(session) <==> session.user == u && (session.sid.None? || session.sid == Some(s))
    ensures OfLogin(s).Matches(session) <==> session.sid == Some(s)
  {
  }
}
