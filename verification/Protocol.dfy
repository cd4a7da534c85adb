// The session protocol: what concurrent requests, logins, logouts, revocations and the sweep do to
// the store, the lock table and the refresh tokens, one step per await point.

module Protocol {
  import opened Clock
  import opened Wrappers
  import opened Session
  import opened SessionStore
  import opened RefreshLock

  /** The last seconds of an access token are not relied on. */
  const ACCESS_TOKEN_REFRESH_LEEWAY: Duration := 5 * SECOND

  predicate IsFresh(data: SessionData, now: Time) {
    data.expiresAt > now + ACCESS_TOKEN_REFRESH_LEEWAY
  }

  datatype Outcome =
    | Bearer(access: Token)
    | Unauthenticated
    | RefreshRefused
    | RefreshUnavailable
    | Cancelled
    | Finished

  /** Where a task stands. From `Rereading` to `Leaving` it holds the turn of session `id`. */
  datatype Task =
    | Opened(id: SessionId)                                         // about to read the session
    | Checking(id: SessionId, data: SessionData)                    // read it
    | Asking(id: SessionId)                                         // stale: about to ask for the turn
    | Queued(id: SessionId)                                         // waits for the turn
    | Rereading(id: SessionId)                                      // has it, about to read again
    | Rechecking(id: SessionId, data: SessionData)                  // read it again
    | Calling(id: SessionId, data: SessionData)                     // presented data.refresh to Hydra
    | Storing(id: SessionId, data: SessionData, next: SessionData)  // Hydra answered with tokens
    | Dropping(id: SessionId, data: SessionData)                    // Hydra refused the refresh token
    | Disowning(id: SessionId, next: SessionData)                   // the session ended meanwhile
    | Leaving(id: SessionId, outcome: Outcome)                      // about to hand the turn over
    | Ending(refresh: Token)                                        // took a session, to revoke its token
    | Revoking(owed: set<Token>)                                    // a detached task revoking tokens
    | Done(outcome: Outcome)
  {
    predicate HasTurn() {
      || Rereading? || Rechecking? || Calling? || Storing? || Dropping? || Disowning? || Leaving?
    }

    /** The task relies on `data` being what the store holds. */
    predicate HasRead() {
      Rechecking? || Calling? || Storing? || Dropping?
    }

    /** Hydra answered with a new refresh token that is not stored yet. */
    predicate Rotated() {
      Storing? && next.refresh != data.refresh
    }

    /** The task is going to ask Hydra to revoke `r`. */
    predicate Owes(r: Token) {
      || (Ending? && refresh == r)
      || (Revoking? && r in owed)
      || (Disowning? && next.refresh == r)
    }

    /** The task awaits something, so its request may go away here; detached tasks have none. */
    predicate Cancellable() {
      || Opened? || Queued? || Rereading? || Calling? || Storing? || Dropping? || Disowning? || Ending?
    }
  }

  /** What became of a refresh token bff got for a session. */
  datatype Fate =
    | Stored                // the current token of its session
    | InFlight(task: TaskId)// in the hands of the refresh that got it
    | Superseded            // replaced in the store by its successor
    | Ended(task: TaskId)   // its session was ended; `task` revokes it
    | Refused               // dropped because Hydra refused it
    | Swept                 // dropped at its end
    | Abandoned             // lost with a cancelled request

  datatype TokenRecord = TokenRecord(session: SessionId, fate: Fate)

  datatype State = State(
    store: Store,
    locks: Table,
    tasks: map<TaskId, Task>,
    /** Every session id ever saved. */
    used: set<SessionId>,
    /** Every refresh token bff ever got for a session. */
    tokens: map<Token, TokenRecord>,
    /** The refresh tokens Hydra was asked to revoke. */
    asked: set<Token>,
    /** The refresh tokens Hydra has replaced with a new one. */
    rotated: set<Token>,
    /** The refresh tokens presented by a refresh that never learnt Hydra's answer. */
    unheard: set<Token>,
    /** The replaced refresh tokens whose replacement never reached the store. */
    lost: set<Token>)

  const INITIAL: State := State(Store(map[], map[]), EMPTY, map[], {}, map[], {}, {}, {}, {})

  /** Hydra's answer to a refresh; after `Failed` the token may be as good as before, or replaced. */
  datatype Reply =
    | Tokens(access: Token, rotated: Option<Token>, expiresIn: Duration)
    | Rejected
    | Failed

  datatype Event =
    | Open(t: TaskId, id: SessionId)
    | Read(t: TaskId)
    | Check(t: TaskId, now: Time, later: Time)
    | Ask(t: TaskId, unused: Lock)
    | Grant(t: TaskId)
    | Reread(t: TaskId)
    | Recheck(t: TaskId, now: Time)
    | Answer(t: TaskId, reply: Reply, now: Time, later: Time, ttl: Duration)
    | Commit(t: TaskId)
    | Drop(t: TaskId)
    | Disown(t: TaskId)
    | Leave(t: TaskId)
    | Cancel(t: TaskId)
    | LateRotation(r: Token)
    | EndSession(t: TaskId, id: SessionId)
    | AskRevoke(t: TaskId)
    | EndSessions(t: TaskId, sel: Selector)
    | RevokeOne(t: TaskId, r: Token)
    | Login(t: TaskId, id: SessionId, data: SessionData)
    | Sweep(now: Time)
    | Prune

  function RefreshTokens(st: Store, ids: set<SessionId>): set<Token> {
    set id | id in ids && id in st.byId :: st.byId[id].refresh
  }

  function Refated(tokens: map<Token, TokenRecord>, rs: set<Token>, fate: Fate): map<Token, TokenRecord> {
    map r | r in tokens :: if r in rs then tokens[r].(fate := fate) else tokens[r]
  }

  /** The session a refresh stores: the login's own fields are kept. */
  function Refreshed(data: SessionData, reply: Reply, now: Time, later: Time, ttl: Duration): SessionData
    requires reply.Tokens?
  {
    var (refresh, refreshExpiresAt) :=
      match reply.rotated
      case Some(r) => (r, now + ttl)
      case None => (data.refresh, data.refreshExpiresAt);
    SessionData(reply.access, refresh, data.idToken, later + reply.expiresIn,
                data.createdAt, refreshExpiresAt, data.user, data.sid)
  }


  ghost predicate Enabled(s: State, e: Event) {
    match e
    case Open(t, _) => t !in s.tasks
    case Read(t) => t in s.tasks && s.tasks[t].Opened?
    case Check(t, now, later) => t in s.tasks && s.tasks[t].Checking? && now <= later
    case Ask(t, unused) => t in s.tasks && s.tasks[t].Asking? && unused !in s.locks.strong && s.locks.EntriesCounted()
    case Grant(t) =>
      t in s.tasks && s.tasks[t].Queued? && t in s.locks.handles && s.locks.Free(s.locks.handles[t].lock)
    case Reread(t) => t in s.tasks && s.tasks[t].Rereading?
    case Recheck(t, _) => t in s.tasks && s.tasks[t].Rechecking?
    case Answer(t, reply, now, later, _) =>
      && t in s.tasks && s.tasks[t].Calling? && now <= later
      && (reply.Tokens? && reply.rotated.Some? ==> reply.rotated.value !in s.tokens)
    case Commit(t) => t in s.tasks && s.tasks[t].Storing?
    case Drop(t) => t in s.tasks && s.tasks[t].Dropping?
    case Disown(t) => t in s.tasks && s.tasks[t].Disowning?
    case Leave(t) => t in s.tasks && s.tasks[t].Leaving? && t in s.locks.handles
    case Cancel(t) => t in s.tasks && s.tasks[t].Cancellable()
    case LateRotation(r) => r in s.unheard
    case EndSession(t, _) => t !in s.tasks
    case AskRevoke(t) => t in s.tasks && s.tasks[t].Ending?
    case EndSessions(t, _) => t !in s.tasks
    case RevokeOne(t, r) => t in s.tasks && s.tasks[t].Revoking? && r in s.tasks[t].owed
    case Login(t, id, data) => t !in s.tasks && id !in s.used && data.refresh !in s.tokens && s.store.Valid()
    case Sweep(_) => true
    case Prune => s.locks.EntriesCounted()
  }

  function Moved(s: State, t: TaskId, task: Task): State {
    s.(tasks := s.tasks[t := task])
  }

  /** `update_session`, or the finding that the session is gone. */
  function DoCommit(s: State, t: TaskId): State
    requires t in s.tasks && s.tasks[t].Storing?
  {
    var Storing(id, data, next) := s.tasks[t];
    if id in s.store.byId then
      var tokens := if s.store.byId[id].refresh == next.refresh then s.tokens
                    else Refated(s.tokens, {s.store.byId[id].refresh}, Superseded);
      Moved(s, t, Leaving(id, Bearer(next.access)))
        .(store := Updated(s.store, id, next), tokens := Refated(tokens, {next.refresh}, Stored))
    else
      Moved(s, t, Disowning(id, next))
        .(tokens := if s.tasks[t].Rotated() then Refated(s.tokens, {next.refresh}, Ended(t)) else s.tokens)
  }

  function DoAnswer(s: State, t: TaskId, reply: Reply, now: Time, later: Time, ttl: Duration): State
    requires t in s.tasks && s.tasks[t].Calling?
  {
    var Calling(id, data) := s.tasks[t];
    match reply
    case Tokens(_, rotated, _) =>
      var answered := Moved(s, t, Storing(id, data, Refreshed(data, reply, now, later, ttl)));
      if rotated.Some?
      then answered.(tokens := s.tokens[rotated.value := TokenRecord(id, InFlight(t))], rotated := s.rotated + {data.refresh})
      else answered
    case Rejected => Moved(s, t, Dropping(id, data))
    case Failed => Moved(s, t, Leaving(id, RefreshUnavailable)).(unheard := s.unheard + {data.refresh})
  }

  /** The request goes away: its lock handle with it, and whatever only it knew. */
  function DoCancel(s: State, t: TaskId): State
    requires t in s.tasks && s.tasks[t].Cancellable()
  {
    var task := s.tasks[t];
    var lost := set r | r in s.tokens && (s.tokens[r].fate == InFlight(t) || (s.tokens[r].fate == Ended(t) && r !in s.asked));
    Moved(s, t, Done(Cancelled))
      .(locks := if t !in s.locks.handles then s.locks
                 else if task.Queued? then GivenUp(s.locks, t) else Released(s.locks, t),
        tokens := Refated(s.tokens, lost, Abandoned),
        unheard := if task.Calling? then s.unheard + {task.data.refresh} else s.unheard,
        lost := if task.Rotated() then s.lost + {task.data.refresh} else s.lost)
  }

  /** Drops the sessions `ids` from the store; `task` is left to revoke their refresh tokens. */
  function DoEnd(s: State, t: TaskId, ids: set<SessionId>, task: Task): State {
    Moved(s, t, task)
      .(store := Without(s.store, ids), tokens := Refated(s.tokens, RefreshTokens(s.store, ids), Ended(t)))
  }

  function DoLogin(s: State, t: TaskId, id: SessionId, data: SessionData): State
    requires s.store.Valid()
  {
    var out := RefreshTokens(Inserted(s.store, id, data), Elements(Evicted(s.store, id, data)));
    Moved(s, t, Revoking(out))
      .(store := Saved(s.store, id, data),
        used := s.used + {id},
        tokens := Refated(s.tokens[data.refresh := TokenRecord(id, Stored)], out, Ended(t)))
  }

  /** The state after a step; a step that may not be taken leaves it as it is. */
  ghost function Apply(s: State, e: Event): State {
    if Enabled(s, e) then Stepped(s, e) else s
  }

  function Stepped(s: State, e: Event): State
    requires Enabled(s, e)
  {
    match e
    case Open(t, id) => Moved(s, t, Opened(id))
    case Read(t) =>
      var id := s.tasks[t].id;
      Moved(s, t, if id in s.store.byId then Checking(id, s.store.byId[id]) else Done(Unauthenticated))
    case Check(t, now, later) =>
      var Checking(id, data) := s.tasks[t];
      Moved(s, t, if data.EndsAt() <= now then Done(Unauthenticated)
                  else if IsFresh(data, later) then Done(Bearer(data.access))
                  else Asking(id))
    case Ask(t, unused) =>
      Moved(s, t, Queued(s.tasks[t].id)).(locks := Asked(s.locks, t, s.tasks[t].id, unused))
    case Grant(t) =>
      Moved(s, t, Rereading(s.tasks[t].id)).(locks := Granted(s.locks, t))
    case Reread(t) =>
      var id := s.tasks[t].id;
      Moved(s, t, if id in s.store.byId then Rechecking(id, s.store.byId[id]) else Leaving(id, Unauthenticated))
    case Recheck(t, now) =>
      var Rechecking(id, data) := s.tasks[t];
      Moved(s, t, if IsFresh(data, now) then Leaving(id, Bearer(data.access)) else Calling(id, data))
    case Answer(t, reply, now, later, ttl) => DoAnswer(s, t, reply, now, later, ttl)
    case Commit(t) => DoCommit(s, t)
    case Drop(t) =>
      var id := s.tasks[t].id;
      Moved(s, t, Leaving(id, RefreshRefused))
        .(store := Without(s.store, {id}), tokens := Refated(s.tokens, RefreshTokens(s.store, {id}), Refused))
    case Disown(t) =>
      var Disowning(id, next) := s.tasks[t];
      Moved(s, t, Leaving(id, Unauthenticated)).(asked := s.asked + {next.refresh})
    case Leave(t) => Moved(s, t, Done(s.tasks[t].outcome)).(locks := Released(s.locks, t))
    case Cancel(t) => DoCancel(s, t)
    case LateRotation(r) => s.(rotated := s.rotated + {r}, lost := s.lost + {r})
    case EndSession(t, id) =>
      DoEnd(s, t, {id}, if id in s.store.byId then Ending(s.store.byId[id].refresh) else Done(Finished))
    case AskRevoke(t) => Moved(s, t, Done(Finished)).(asked := s.asked + {s.tasks[t].refresh})
    case EndSessions(t, sel) =>
      var ids := s.store.Matching(sel);
      DoEnd(s, t, ids, Revoking(RefreshTokens(s.store, ids)))
    case RevokeOne(t, r) => Moved(s, t, Revoking(s.tasks[t].owed - {r})).(asked := s.asked + {r})
    case Login(t, id, data) => DoLogin(s, t, id, data)
    case Sweep(now) =>
      var ids := s.store.Expired(now);
      s.(store := Without(s.store, ids), tokens := Refated(s.tokens, RefreshTokens(s.store, ids), Swept))
    case Prune => s.(locks := Pruned(s.locks))
  }
}
