// What every step of the session protocol keeps.

module ProtocolInvariant {
  import opened Session
  import opened SessionStore
  import opened RefreshLock
  import opened Protocol

  /** A task has a lock handle exactly while it waits for its session's turn or has it. */
  ghost predicate TurnOk(s: State, t: TaskId) {
    && (t in s.locks.handles <==> t in s.tasks && (s.tasks[t].Queued? || s.tasks[t].HasTurn()))
    && (t in s.locks.handles ==>
         && s.locks.handles[t].session == s.tasks[t].id
         && (s.locks.handles[t].phase.Waiting? <==> s.tasks[t].Queued?))
  }

  ghost predicate TurnsOk(s: State) {
    s.locks.Valid() && forall t :: TurnOk(s, t)
  }

  ghost predicate UnderCap(st: Store, u: UserId) {
    |st.Ids(u)| <= MAX_SESSIONS_PER_USER
  }

  ghost predicate StoreOk(s: State) {
    && s.store.Valid()
    && (forall u :: UnderCap(s.store, u))
    && s.store.byId.Keys <= s.used
  }

  /** What a task in the middle of a refresh may rely on. */
  ghost predicate TaskOk(s: State, t: TaskId) {
    t in s.tasks ==>
      var task := s.tasks[t];
      && (task.Checking? ==> task.id in s.used && (task.id in s.store.byId ==> s.store.byId[task.id].SameLogin(task.data)))
      && (task.HasRead() ==>
           && task.id in s.used
           && (task.id in s.store.byId ==> s.store.byId[task.id] == task.data)
           && task.data.refresh in s.tokens
           && s.tokens[task.data.refresh].session == task.id
           && !s.tokens[task.data.refresh].fate.Superseded?
           && !s.tokens[task.data.refresh].fate.InFlight?)
      && (task.Storing? ==>
           && task.next.SameLogin(task.data)
           && task.next.refresh in s.tokens
           && s.tokens[task.next.refresh].session == task.id)
      && (task.Rotated() ==> s.tokens[task.next.refresh].fate == InFlight(t))
      && (task.Disowning? ==> task.id in s.used && task.id !in s.store.byId)
  }

  /** What a token's fate says about the rest of the state. */
  ghost predicate TokenOk(s: State, r: Token) {
    r in s.tokens ==>
      var record := s.tokens[r];
      && record.session in s.used
      && (record.fate.Stored? <==> record.session in s.store.byId && s.store.byId[record.session].refresh == r)
      && (record.session in s.store.byId ==> !record.fate.Ended? && !record.fate.Refused? && !record.fate.Swept?)
      && (record.fate.InFlight? ==>
           && record.fate.task in s.tasks
           && s.tasks[record.fate.task].Rotated()
           && s.tasks[record.fate.task].next.refresh == r)
      && (record.fate.Ended? ==>
           r in s.asked || (record.fate.task in s.tasks && s.tasks[record.fate.task].Owes(r)))
  }

  /** A stored session's refresh token is known as that session's. */
  ghost predicate HeldOk(s: State, id: SessionId) {
    id in s.store.byId ==>
      s.store.byId[id].refresh in s.tokens && s.tokens[s.store.byId[id].refresh].session == id
  }

  ghost predicate Accounted(s: State) {
    && (forall t :: TaskOk(s, t))
    && (forall r :: TokenOk(s, r))
    && (forall id :: HeldOk(s, id))
  }

  /** `t` has Hydra's replacement for `r` and is about to store it. */
  ghost predicate Replacing(s: State, t: TaskId, r: Token) {
    t in s.tasks && s.tasks[t].Rotated() && s.tasks[t].data.refresh == r
  }

  /** A token Hydra has replaced is stored only on its way out, or because the answer was lost. */
  ghost predicate RotatedOk(s: State, r: Token) {
    && (r in s.rotated || r in s.unheard ==> r in s.tokens && !s.tokens[r].fate.InFlight?)
    && (r in s.lost ==> r in s.rotated)
    && (r in s.rotated && s.tokens[r].fate.Stored? ==> r in s.lost || exists t :: Replacing(s, t, r))
  }

  /** A request about to present a token Hydra has replaced does so only because the replacement was lost. */
  ghost predicate PresentingOk(s: State, t: TaskId) {
    t in s.tasks ==>
      && (s.tasks[t].Rechecking? && s.tasks[t].data.refresh in s.rotated ==> s.tasks[t].data.refresh in s.lost)
      && (s.tasks[t].Rotated() ==> s.tasks[t].data.refresh in s.rotated)
  }

  ghost predicate Presentable(s: State) {
    && (forall r :: RotatedOk(s, r))
    && (forall t :: PresentingOk(s, t))
  }

  ghost predicate Inv(s: State) {
    TurnsOk(s) && StoreOk(s) && Accounted(s) && Presentable(s)
  }

  lemma InitialInv()
    ensures Inv(INITIAL)
  {
    assert INITIAL.locks.Valid();
  }

  /** Two tasks never have the turn of one session. */
  lemma OneTurn(s: State, t: TaskId, u: TaskId)
    requires TurnsOk(s)
    requires t in s.tasks && u in s.tasks && s.tasks[t].HasTurn() && s.tasks[u].HasTurn()
    requires s.tasks[t].id == s.tasks[u].id
    ensures t == u
  {
    assert TurnOk(s, t) && TurnOk(s, u);
    OneHolderPerSession(s.locks, t, u);
  }

  predicate RemovesOnly(e: Event) {
    e.Drop? || e.EndSession? || e.EndSessions? || e.Sweep?
  }

  // ----- Turns

  lemma LocksKeptByCancel(s: State, t: TaskId)
    requires TurnsOk(s) && Enabled(s, Cancel(t))
    ensures Apply(s, Cancel(t)).locks.Valid()
  {
    assert TurnOk(s, t);
    if t in s.locks.handles && s.tasks[t].Queued? {
      GivenUpValid(s.locks, t);
    } else if t in s.locks.handles {
      ReleasedValid(s.locks, t);
    }
  }

  lemma LocksKept(s: State, e: Event)
    requires TurnsOk(s) && Enabled(s, e)
    ensures Apply(s, e).locks.Valid()
  {
    if e.Ask? {
      assert TurnOk(s, e.t);
      AskedValid(s.locks, e.t, s.tasks[e.t].id, e.unused);
    } else if e.Grant? {
      GrantedValid(s.locks, e.t);
    } else if e.Leave? {
      ReleasedValid(s.locks, e.t);
    } else if e.Cancel? {
      LocksKeptByCancel(s, e.t);
    } else if e.Prune? {
      PrunedValid(s.locks);
    } else {
      assert Apply(s, e).locks == s.locks;
    }
  }

  lemma TurnKeptByLockSteps(s: State, e: Event, t: TaskId)
    requires TurnOk(s, t) && Enabled(s, e) && (e.Ask? || e.Grant? || e.Leave? || e.Cancel?)
    ensures TurnOk(Apply(s, e), t)
  {
  }

  lemma TurnKeptByOtherSteps(s: State, e: Event, t: TaskId)
    requires TurnOk(s, t) && Enabled(s, e) && !(e.Ask? || e.Grant? || e.Leave? || e.Cancel?)
    ensures TurnOk(Apply(s, e), t)
  {
    assert Apply(s, e).locks.handles == s.locks.handles;
    if e.Commit? || e.Answer? || e.Drop? {
      TurnKeptByRefreshSteps(s, e, t);
    } else if e.Login? || RemovesOnly(e) {
      TurnKeptByEndings(s, e, t);
    }
  }

  lemma TurnKeptByRefreshSteps(s: State, e: Event, t: TaskId)
    requires TurnOk(s, t) && Enabled(s, e) && (e.Commit? || e.Answer? || e.Drop?)
    ensures TurnOk(Apply(s, e), t)
  {
  }

  lemma TurnKeptByEndings(s: State, e: Event, t: TaskId)
    requires TurnOk(s, t) && Enabled(s, e) && (e.Login? || e.EndSession? || e.EndSessions? || e.Sweep?)
    ensures TurnOk(Apply(s, e), t)
  {
    assert Apply(s, e).locks == s.locks;
    if e.Login? {
    } else {
    }
  }

  lemma TurnsKept(s: State, e: Event)
    requires TurnsOk(s) && Enabled(s, e)
    ensures TurnsOk(Apply(s, e))
  {
    LocksKept(s, e);
    forall t ensures TurnOk(Apply(s, e), t) {
      if e.Ask? || e.Grant? || e.Leave? || e.Cancel? {
        TurnKeptByLockSteps(s, e, t);
      } else {
        TurnKeptByOtherSteps(s, e, t);
      }
    }
  }

  // ----- The store

  lemma StoreKept(s: State, e: Event)
    requires StoreOk(s) && Accounted(s) && Enabled(s, e)
    ensures StoreOk(Apply(s, e))
  {
    var after := Apply(s, e);
    match e
    case Commit(t) =>
      assert TaskOk(s, t);
      UpdatedValid(s.store, s.tasks[t].id, s.tasks[t].next);
      forall u ensures UnderCap(after.store, u) {
        assert UnderCap(s.store, u);
      }
    case Drop(t) => DroppingKept(s.store, {s.tasks[t].id});
    case EndSession(_, id) => DroppingKept(s.store, {id});
    case EndSessions(_, sel) => DroppingKept(s.store, s.store.Matching(sel));
    case Sweep(now) => DroppingKept(s.store, s.store.Expired(now));
    case Login(_, id, data) =>
      SaveKeepsTheCap(s.store, id, data);
      SaveConserves(s.store, id, data);
      forall u ensures UnderCap(after.store, u) {
        assert UnderCap(s.store, u);
      }
    case _ =>
  }

  lemma DroppingKept(st: Store, gone: set<SessionId>)
    requires st.Valid() && forall u :: UnderCap(st, u)
    ensures Without(st, gone).Valid() && forall u :: UnderCap(Without(st, gone), u)
  {
    WithoutValid(st, gone);
    forall u ensures UnderCap(Without(st, gone), u) {
      assert UnderCap(st, u);
    }
  }

  // ----- The tokens

  /** The tokens of stored sessions are all known, stored, and each its own session's. */
  lemma StoredTokens(s: State, ids: set<SessionId>, r: Token)
    requires Accounted(s)
    requires r in RefreshTokens(s.store, ids)
    ensures r in s.tokens && s.tokens[r].fate.Stored?
    ensures s.tokens[r].session in ids && s.tokens[r].session in s.store.byId
    ensures s.store.byId[s.tokens[r].session].refresh == r
  {
    var id :| id in ids && id in s.store.byId && s.store.byId[id].refresh == r;
    assert HeldOk(s, id) && TokenOk(s, r);
  }

  /** The sessions an event drops without replacing them. */
  ghost function Removed(s: State, e: Event): set<SessionId> {
    match e
    case Drop(t) => if t in s.tasks && s.tasks[t].Dropping? then {s.tasks[t].id} else {}
    case EndSession(_, id) => {id}
    case EndSessions(_, sel) => s.store.Matching(sel)
    case Sweep(now) => s.store.Expired(now)
    case _ => {}
  }

  lemma HeldKeptByTokenSteps(s: State, e: Event, id: SessionId)
    requires Inv(s) && Enabled(s, e) && (e.Commit? || e.Answer? || e.Cancel?)
    ensures HeldOk(Apply(s, e), id)
  {
    assert HeldOk(s, id) && TaskOk(s, e.t);
  }

  lemma HeldKeptByLogin(s: State, e: Event, id: SessionId)
    requires Inv(s) && Enabled(s, e) && e.Login?
    ensures HeldOk(Apply(s, e), id)
  {
    assert HeldOk(s, id);
    SaveConserves(s.store, e.id, e.data);
  }

  lemma HeldKept(s: State, e: Event, id: SessionId)
    requires Inv(s) && Enabled(s, e)
    ensures HeldOk(Apply(s, e), id)
  {
    assert HeldOk(s, id);
    if e.Commit? || e.Answer? || e.Cancel? {
      HeldKeptByTokenSteps(s, e, id);
    } else if e.Login? {
      HeldKeptByLogin(s, e, id);
    }
  }

  lemma TokenKept(s: State, e: Event, r: Token)
    requires Inv(s) && Enabled(s, e)
    ensures TokenOk(Apply(s, e), r)
  {
    assert TokenOk(s, r);
    if e.Commit? {
      TokenKeptByCommit(s, e.t, r);
    } else if e.Answer? {
      TokenKeptByAnswer(s, e, r);
    } else if e.Login? {
      TokenKeptByLogin(s, e.t, e.id, e.data, r);
    } else if e.Cancel? {
      TokenKeptByCancel(s, e.t, r);
    } else if RemovesOnly(e) {
      TokenKeptByRemoval(s, e, r);
    }
  }

  lemma TokenKeptByAnswer(s: State, e: Event, r: Token)
    requires Inv(s) && Enabled(s, e) && e.Answer?
    ensures TokenOk(Apply(s, e), r)
  {
    assert TokenOk(s, r) && TaskOk(s, e.t);
    assert HeldOk(s, s.tasks[e.t].id);
  }

  lemma TokenKeptByCancel(s: State, t: TaskId, r: Token)
    requires Inv(s) && Enabled(s, Cancel(t))
    ensures TokenOk(DoCancel(s, t), r)
  {
    assert TokenOk(s, r);
  }

  lemma TokenKeptByCommit(s: State, t: TaskId, r: Token)
    requires Inv(s) && Enabled(s, Commit(t))
    ensures TokenOk(DoCommit(s, t), r)
  {
    assert TokenOk(s, r) && TaskOk(s, t);
    assert HeldOk(s, s.tasks[t].id);
  }

  lemma TokenKeptByRemoval(s: State, e: Event, r: Token)
    requires Inv(s) && Enabled(s, e) && RemovesOnly(e)
    ensures TokenOk(Apply(s, e), r)
  {
    assert TokenOk(s, r);
    var ids := Removed(s, e);
    if r in RefreshTokens(s.store, ids) {
      StoredTokens(s, ids, r);
    } else if r in s.tokens && s.tokens[r].session in ids && s.tokens[r].session in s.store.byId {
      assert s.store.byId[s.tokens[r].session].refresh != r;
    }
  }

  lemma LoginTokens(s: State, t: TaskId, id: SessionId, data: SessionData, r: Token)
    requires Inv(s) && Enabled(s, Login(t, id, data))
    requires r in s.tokens || r == data.refresh
    ensures var owner := if r == data.refresh then id else s.tokens[r].session;
            r in RefreshTokens(Inserted(s.store, id, data), Elements(Evicted(s.store, id, data))) <==>
              && owner in Evicted(s.store, id, data)
              && (r != data.refresh ==> owner in s.store.byId && s.store.byId[owner].refresh == r)
  {
    var ins, out := Inserted(s.store, id, data), Evicted(s.store, id, data);
    SaveConserves(s.store, id, data);
    ElementsAreMembers(out);
    if r in RefreshTokens(ins, Elements(out)) {
      var x :| x in Elements(out) && x in ins.byId && ins.byId[x].refresh == r;
      if x != id {
        assert HeldOk(s, x);
      }
    }
    var owner := if r == data.refresh then id else s.tokens[r].session;
    if owner in out && (r != data.refresh ==> owner in s.store.byId && s.store.byId[owner].refresh == r) {
      assert owner in Elements(out) && owner in ins.byId;
      assert owner != id ==> ins.byId[owner] == s.store.byId[owner];
      assert ins.byId[owner].refresh == r;
    }
  }

  lemma TokenKeptByLogin(s: State, t: TaskId, id: SessionId, data: SessionData, r: Token)
    requires Inv(s) && Enabled(s, Login(t, id, data))
    ensures TokenOk(DoLogin(s, t, id, data), r)
  {
    assert TokenOk(s, r);
    SaveConserves(s.store, id, data);
    if r in s.tokens || r == data.refresh {
      LoginTokens(s, t, id, data, r);
    }
  }

  lemma TaskKept(s: State, e: Event, t: TaskId)
    requires Inv(s) && Enabled(s, e)
    ensures TaskOk(Apply(s, e), t)
  {
    assert TaskOk(s, t);
    assert StoreOk(s);
    if e.Commit? {
      TaskKeptByCommit(s, e.t, t);
    } else if e.Answer? {
      TaskKeptByAnswer(s, e, t);
    } else if e.Login? {
      TaskKeptByLogin(s, e.t, e.id, e.data, t);
    } else if e.Cancel? {
      TaskKeptByCancel(s, e.t, t);
    } else if e.Reread? {
      TaskKeptByReread(s, e.t, t);
    } else if RemovesOnly(e) {
      TaskKeptByRemoval(s, e, t);
    } else {
      TaskKeptElse(s, e, t);
    }
  }

  lemma TaskKeptElse(s: State, e: Event, t: TaskId)
    requires StoreOk(s) && TaskOk(s, t) && Enabled(s, e)
    requires !(e.Commit? || e.Answer? || e.Login? || e.Cancel? || e.Reread? || RemovesOnly(e))
    ensures TaskOk(Apply(s, e), t)
  {
    assert Apply(s, e).store == s.store && Apply(s, e).tokens == s.tokens && Apply(s, e).used == s.used;
  }

  lemma TaskKeptByAnswer(s: State, e: Event, t: TaskId)
    requires Inv(s) && Enabled(s, e) && e.Answer?
    ensures TaskOk(Apply(s, e), t)
  {
    assert TaskOk(s, t);
  }

  lemma TaskKeptByCancel(s: State, u: TaskId, t: TaskId)
    requires Inv(s) && Enabled(s, Cancel(u))
    ensures TaskOk(DoCancel(s, u), t)
  {
    assert TaskOk(s, t);
  }

  lemma TaskKeptByReread(s: State, u: TaskId, t: TaskId)
    requires Inv(s) && Enabled(s, Reread(u))
    ensures TaskOk(Apply(s, Reread(u)), t)
  {
    assert TaskOk(s, t);
    var id := s.tasks[u].id;
    assert HeldOk(s, id);
    if id in s.store.byId {
      assert TokenOk(s, s.store.byId[id].refresh);
    }
  }

  lemma TaskKeptByRemoval(s: State, e: Event, t: TaskId)
    requires Inv(s) && Enabled(s, e) && RemovesOnly(e)
    ensures TaskOk(Apply(s, e), t)
  {
    assert TaskOk(s, t);
    forall r | r in RefreshTokens(s.store, Removed(s, e)) ensures r in s.tokens && s.tokens[r].fate.Stored? {
      StoredTokens(s, Removed(s, e), r);
    }
  }

  lemma TaskKeptByCommit(s: State, u: TaskId, t: TaskId)
    requires Inv(s) && Enabled(s, Commit(u))
    ensures TaskOk(DoCommit(s, u), t)
  {
    assert TaskOk(s, t) && TaskOk(s, u);
    var id := s.tasks[u].id;
    assert HeldOk(s, id);
    if t in s.tasks && s.tasks[t].HasTurn() && s.tasks[t].id == id {
      OneTurn(s, t, u);
    }
  }

  lemma TaskKeptByLogin(s: State, u: TaskId, id: SessionId, data: SessionData, t: TaskId)
    requires Inv(s) && Enabled(s, Login(u, id, data))
    ensures TaskOk(DoLogin(s, u, id, data), t)
  {
    assert TaskOk(s, t);
    SaveConserves(s.store, id, data);
    if t in s.tasks && s.tasks[t].Storing? {
      assert TokenOk(s, s.tasks[t].next.refresh);
      LoginTokens(s, u, id, data, s.tasks[t].next.refresh);
    }
  }

  lemma AccountedKept(s: State, e: Event)
    requires Inv(s) && Enabled(s, e)
    ensures Accounted(Apply(s, e))
  {
    forall t ensures TaskOk(Apply(s, e), t) {
      TaskKept(s, e, t);
    }
    forall r ensures TokenOk(Apply(s, e), r) {
      TokenKept(s, e, r);
    }
    forall id ensures HeldOk(Apply(s, e), id) {
      HeldKept(s, e, id);
    }
  }

  // ----- What Hydra has replaced

  lemma RotatedKnownByTokenSteps(s: State, e: Event, r: Token)
    requires Inv(s) && Enabled(s, e) && (e.Commit? || e.Answer? || e.Cancel?)
    requires r in Apply(s, e).rotated || r in Apply(s, e).unheard
    ensures r in Apply(s, e).tokens && !Apply(s, e).tokens[r].fate.InFlight?
  {
    assert RotatedOk(s, r) && TaskOk(s, e.t);
  }

  lemma RotatedKnown(s: State, e: Event, r: Token)
    requires Inv(s) && Enabled(s, e)
    requires r in Apply(s, e).rotated || r in Apply(s, e).unheard
    ensures r in Apply(s, e).tokens && !Apply(s, e).tokens[r].fate.InFlight?
  {
    assert RotatedOk(s, r);
    if e.Commit? || e.Answer? || e.Cancel? {
      RotatedKnownByTokenSteps(s, e, r);
    }
  }

  /** No step makes a token Hydra has replaced the current one of a session. */
  lemma RotatedNeverStoredAnew(s: State, e: Event, r: Token)
    requires Inv(s) && Enabled(s, e)
    requires r in s.rotated && r in s.tokens && !s.tokens[r].fate.Stored?
    ensures r in Apply(s, e).tokens && !Apply(s, e).tokens[r].fate.Stored?
  {
    assert RotatedOk(s, r) && TokenOk(s, r);
    match e
    case Commit(t) => assert TaskOk(s, t);
    case Answer(t, _, _, _, _) =>
    case Cancel(t) =>
    case Login(t, id, data) =>
    case _ =>
  }

  lemma ReplacedOnce(s: State, e: Event, t: TaskId, r: Token)
    requires Inv(s) && Enabled(s, e)
    requires Replacing(s, t, r)
    ensures || Replacing(Apply(s, e), t, r)
            || r in Apply(s, e).lost
            || (r in Apply(s, e).tokens && !Apply(s, e).tokens[r].fate.Stored?)
  {
    assert TaskOk(s, t) && TokenOk(s, r);
    if e == Commit(t) {
      ReplacedByCommit(s, t, r);
    } else if e.Commit? || e.Cancel? {
      assert Replacing(Apply(s, e), t, r) || r in Apply(s, e).lost;
    }
  }

  lemma ReplacedByCommit(s: State, t: TaskId, r: Token)
    requires Inv(s) && Enabled(s, Commit(t)) && Replacing(s, t, r)
    ensures r in DoCommit(s, t).tokens && !DoCommit(s, t).tokens[r].fate.Stored?
  {
    assert TaskOk(s, t) && TokenOk(s, r);
    assert HeldOk(s, s.tasks[t].id);
  }

  lemma RotatedKept(s: State, e: Event, r: Token)
    requires Inv(s) && Enabled(s, e)
    ensures RotatedOk(Apply(s, e), r)
  {
    var after := Apply(s, e);
    assert RotatedOk(s, r);
    if e.Cancel? {
      assert PresentingOk(s, e.t);
    }
    if r in after.rotated || r in after.unheard {
      RotatedKnown(s, e, r);
    }
    if r in after.rotated && after.tokens[r].fate.Stored? {
      if r !in s.rotated {
        if e.Answer? {
          assert Replacing(after, e.t, r);
        }
      } else if !s.tokens[r].fate.Stored? {
        RotatedNeverStoredAnew(s, e, r);
      } else if r in s.lost {
        assert r in after.lost;
      } else {
        var t :| Replacing(s, t, r);
        ReplacedOnce(s, e, t, r);
      }
    }
  }

  lemma PresentingKeptByReread(s: State, t: TaskId)
    requires Inv(s) && Enabled(s, Reread(t))
    ensures PresentingOk(Apply(s, Reread(t)), t)
  {
    var id := s.tasks[t].id;
    if id in s.store.byId {
      var r := s.store.byId[id].refresh;
      assert HeldOk(s, id) && TokenOk(s, r) && RotatedOk(s, r);
      if u :| Replacing(s, u, r) {
        assert TaskOk(s, u);
        OneTurn(s, t, u);
      }
    }
  }

  lemma PresentingKeptByAnswer(s: State, e: Event, t: TaskId)
    requires Inv(s) && Enabled(s, e) && e.Answer?
    ensures PresentingOk(Apply(s, e), t)
  {
    assert PresentingOk(s, t) && TaskOk(s, t) && TaskOk(s, e.t);
    if t in s.tasks && t != e.t && s.tasks[t].Rechecking? && s.tasks[t].id == s.tasks[e.t].id {
      OneTurn(s, t, e.t);
    }
  }

  lemma PresentingKeptElse(s: State, e: Event, t: TaskId)
    requires PresentingOk(s, t) && Enabled(s, e) && !e.Reread? && !e.Answer?
    ensures PresentingOk(Apply(s, e), t)
  {
    if e.Commit? || e.Cancel? {
    } else if e.Login? || RemovesOnly(e) {
    }
  }

  lemma PresentingKept(s: State, e: Event, t: TaskId)
    requires Inv(s) && Enabled(s, e)
    ensures PresentingOk(Apply(s, e), t)
  {
    assert PresentingOk(s, t);
    if e.Reread? {
      if e.t == t {
        PresentingKeptByReread(s, t);
      }
    } else if e.Answer? {
      PresentingKeptByAnswer(s, e, t);
    } else {
      PresentingKeptElse(s, e, t);
    }
  }

  /** Every step keeps the invariant. */
  lemma InvKept(s: State, e: Event)
    requires Inv(s) && Enabled(s, e)
    ensures Inv(Apply(s, e))
  {
    TurnsKept(s, e);
    StoreKept(s, e);
    AccountedKept(s, e);
    forall r ensures RotatedOk(Apply(s, e), r) {
      RotatedKept(s, e, r);
    }
    forall t ensures PresentingOk(Apply(s, e), t) {
      PresentingKept(s, e, t);
    }
  }
}
