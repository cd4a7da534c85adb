// The limits of what the protocol promises: runs in which a replaced token is presented again, and in
// which a request is served after its session's end.

module ProtocolWitness {
  import opened Clock
  import opened Wrappers
  import opened Sets
  import opened Session
  import opened SessionStore
  import opened RefreshLock
  import opened Protocol
  import opened ProtocolInvariant
  import opened ProtocolRuns

  ghost predicate Leads(s: State, e: Event, next: State) {
    Enabled(s, e) && Apply(s, e) == next
  }

  function Last(ss: seq<State>): State
    requires ss != []
  {
    ss[|ss| - 1]
  }

  // ----- A request on its way to the token endpoint, step by step

  lemma ReadsAndFindsStale(s: State, u: TaskId, id: SessionId, now: Time)
    requires u !in s.tasks && id in s.store.byId
    requires now < s.store.byId[id].EndsAt() && !IsFresh(s.store.byId[id], now)
    ensures Leads(s, Open(u, id), Moved(s, u, Opened(id)))
    ensures Leads(Moved(s, u, Opened(id)), Read(u), Moved(s, u, Checking(id, s.store.byId[id])))
    ensures Leads(Moved(s, u, Checking(id, s.store.byId[id])), Check(u, now, now), Moved(s, u, Asking(id)))
  {
    assert s.tasks[u := Opened(id)][u := Checking(id, s.store.byId[id])] == s.tasks[u := Checking(id, s.store.byId[id])];
    assert s.tasks[u := Checking(id, s.store.byId[id])][u := Asking(id)] == s.tasks[u := Asking(id)];
  }

  function Turned(s: State, u: TaskId, id: SessionId, unused: Lock): Table
    requires s.locks.EntriesCounted()
  {
    Granted(Asked(s.locks, u, id, unused), u)
  }

  lemma GetsTheTurn(s: State, u: TaskId, id: SessionId, unused: Lock)
    requires TurnsOk(s) && u !in s.tasks && unused !in s.locks.strong && TurnTakers(s, id) == {}
    ensures Leads(Moved(s, u, Asking(id)), Ask(u, unused), Moved(s, u, Queued(id)).(locks := Asked(s.locks, u, id, unused)))
    ensures Leads(Moved(s, u, Queued(id)).(locks := Asked(s.locks, u, id, unused)), Grant(u),
                  Moved(s, u, Rereading(id)).(locks := Turned(s, u, id, unused)))
  {
    assert s.tasks[u := Asking(id)][u := Queued(id)] == s.tasks[u := Queued(id)];
    assert s.tasks[u := Queued(id)][u := Rereading(id)] == s.tasks[u := Rereading(id)];
    assert TurnOk(s, u);
    NobodyElseOnTheLock(s, u, id, unused);
  }

  lemma NobodyElseOnTheLock(s: State, u: TaskId, id: SessionId, unused: Lock)
    requires TurnsOk(s) && u !in s.locks.handles && unused !in s.locks.strong && TurnTakers(s, id) == {}
    ensures Asked(s.locks, u, id, unused).Free(Asked(s.locks, u, id, unused).handles[u].lock)
  {
    var asked := Asked(s.locks, u, id, unused);
    forall t | t in asked.handles && t != u ensures asked.handles[t].lock != asked.handles[u].lock {
      assert TurnOk(s, t);
      assert t !in TurnTakers(s, id);
      assert s.locks.handles[t].session in s.locks.locks;
    }
  }

  lemma RereadsAndPresents(s: State, u: TaskId, id: SessionId, now: Time, locks: Table)
    requires u !in s.tasks && id in s.store.byId && !IsFresh(s.store.byId[id], now)
    ensures var data := s.store.byId[id];
      var again := Moved(s, u, Rechecking(id, data)).(locks := locks);
      && Leads(Moved(s, u, Rereading(id)).(locks := locks), Reread(u), again)
      && Presents(again, Recheck(u, now), data.refresh)
      && Leads(again, Recheck(u, now), Moved(s, u, Calling(id, data)).(locks := locks))
  {
    var data := s.store.byId[id];
    assert s.tasks[u := Rereading(id)][u := Rechecking(id, data)] == s.tasks[u := Rechecking(id, data)];
    assert s.tasks[u := Rechecking(id, data)][u := Calling(id, data)] == s.tasks[u := Calling(id, data)];
    var again := Moved(s, u, Rechecking(id, data)).(locks := locks);
    assert BeginsCall(again, Apply(again, Recheck(u, now)), u, data.refresh);
  }

  /**
   * With nobody else at it, the next request of a stored session due for refresh presents the stored
   * refresh token, be it one Hydra has replaced.
   */
  lemma NextRequestPresents(ss: seq<State>, es: seq<Event>, u: TaskId, id: SessionId, now: Time, later: Time, unused: Lock)
      returns (ss': seq<State>, es': seq<Event>)
    requires IsRun(ss, es)
    requires u !in Last(ss).tasks && unused !in Last(ss).locks.strong && TurnTakers(Last(ss), id) == {}
    requires var s := Last(ss);
      id in s.store.byId && now < s.store.byId[id].EndsAt() && !IsFresh(s.store.byId[id], now) && now <= later
    ensures IsRun(ss', es') && ss < ss' && es < es' && es'[|es'| - 1] == Recheck(u, later)
    ensures var s, last := Last(ss), |es'| - 1;
      && Presents(ss'[last], es'[last], s.store.byId[id].refresh)
      && ss'[last].rotated == s.rotated && ss'[last].store == s.store && u in ss'[last + 1].locks.handles
      && ss'[last + 1] == Moved(s, u, Calling(id, s.store.byId[id])).(locks := ss'[last + 1].locks)
  {
    RunInv(ss, es, |es|);
    var s := Last(ss);
    var data := s.store.byId[id];
    var asked, turned := Asked(s.locks, u, id, unused), Turned(s, u, id, unused);
    ReadsAndFindsStale(s, u, id, now);
    GetsTheTurn(s, u, id, unused);
    RereadsAndPresents(s, u, id, later, turned);
    ss', es' := AndThen(ss, es, Open(u, id), Moved(s, u, Opened(id)));
    ss', es' := AndThen(ss', es', Read(u), Moved(s, u, Checking(id, data)));
    ss', es' := AndThen(ss', es', Check(u, now, now), Moved(s, u, Asking(id)));
    ss', es' := AndThen(ss', es', Ask(u, unused), Moved(s, u, Queued(id)).(locks := asked));
    ss', es' := AndThen(ss', es', Grant(u), Moved(s, u, Rereading(id)).(locks := turned));
    ss', es' := AndThen(ss', es', Reread(u), Moved(s, u, Rechecking(id, data)).(locks := turned));
    ss', es' := AndThen(ss', es', Recheck(u, later), Moved(s, u, Calling(id, data)).(locks := turned));
  }

  lemma AndThen(ss: seq<State>, es: seq<Event>, e: Event, next: State) returns (ss': seq<State>, es': seq<Event>)
    requires IsRun(ss, es) && Leads(Last(ss), e, next)
    ensures IsRun(ss', es') && ss' == ss + [next] && es' == es + [e]
  {
    ss', es' := ss + [next], es + [e];
    forall i | 0 <= i < |es'| ensures IsStep(ss', es', i) {
      if i < |es| {
        assert IsStep(ss, es, i);
      }
    }
  }

  // ----- The run that loses an answer

  const ACCESS: Token := 10
  const FIRST: Token := 11
  const SECOND_ACCESS: Token := 12
  const REPLACEMENT: Token := 13

  /** A login whose access token lasts a second and is due for refresh at once; its refresh token lasts 60 days. */
  const STALE_LOGIN: SessionData := SessionData(ACCESS, FIRST, 14, SECOND, 0, 60 * DAY, 1, None)

  lemma NobodyEvicted(id: SessionId)
    ensures Saved(INITIAL.store, id, STALE_LOGIN).byId == map[id := STALE_LOGIN]
    ensures RefreshTokens(Inserted(INITIAL.store, id, STALE_LOGIN), Elements(Evicted(INITIAL.store, id, STALE_LOGIN))) == {}
  {
    var empty: Store := INITIAL.store;
    SaveConserves(empty, id, STALE_LOGIN);
    SaveKeepsTheNewest(empty, id, STALE_LOGIN);
    var evicted := Evicted(empty, id, STALE_LOGIN);
    forall x ensures x !in evicted {
    }
    assert evicted == [] by {
      ElementsAreMembers(evicted);
      assert Elements(evicted) == {};
    }
    assert Saved(empty, id, STALE_LOGIN).byId.Keys == {id};
  }

  lemma FirstLogin(id: SessionId)
    ensures Leads(INITIAL, Login(0, id, STALE_LOGIN), LoggedIn(id))
    ensures LoggedIn(id).store.byId == map[id := STALE_LOGIN]
    ensures LoggedIn(id).tasks == map[0 := Revoking({})]
    ensures LoggedIn(id).locks == EMPTY
    ensures LoggedIn(id).tokens.Keys == {FIRST}
  {
    NobodyEvicted(id);
  }

  function LoggedIn(id: SessionId): State {
    DoLogin(INITIAL, 0, id, STALE_LOGIN)
  }

  /** Hydra replaces the token, and the request goes away before it stores the replacement. */
  lemma AnswerThenCancel(s: State, t: TaskId, id: SessionId)
    requires TurnsOk(s) && t in s.tasks && s.tasks[t] == Calling(id, STALE_LOGIN) && REPLACEMENT !in s.tokens
    requires TurnTakers(s, id) == {t}
    ensures var answer := Answer(t, Tokens(SECOND_ACCESS, Some(REPLACEMENT), HOUR), 1, 1, 60 * DAY);
      && Enabled(s, answer)
      && Enabled(Apply(s, answer), Cancel(t))
      && var gone := Apply(Apply(s, answer), Cancel(t));
         && gone.tasks == s.tasks[t := Done(Cancelled)]
         && gone.store == s.store
         && FIRST in gone.rotated
         && TurnTakers(gone, id) == {}
  {
    var answered := DoAnswer(s, t, Tokens(SECOND_ACCESS, Some(REPLACEMENT), HOUR), 1, 1, 60 * DAY);
    assert answered.tasks[t].Storing?;
    var gone := DoCancel(answered, t);
    assert gone.tasks == s.tasks[t := Done(Cancelled)];
    forall u ensures u !in TurnTakers(gone, id) {
      assert u !in TurnTakers(s, id) || u == t;
    }
  }

  lemma LogsIn(id: SessionId) returns (ss: seq<State>, es: seq<Event>)
    ensures IsRun(ss, es) && Last(ss) == LoggedIn(id) && TurnTakers(LoggedIn(id), id) == {}
    ensures LoggedIn(id).store.byId == map[id := STALE_LOGIN]
    ensures LoggedIn(id).tasks == map[0 := Revoking({})]
    ensures LoggedIn(id).locks == EMPTY
    ensures LoggedIn(id).tokens.Keys == {FIRST}
  {
    FirstLogin(id);
    ss, es := AndThen([INITIAL], [], Login(0, id, STALE_LOGIN), LoggedIn(id));
  }

  lemma FirstPresentation(id: SessionId) returns (ss: seq<State>, es: seq<Event>)
    ensures IsRun(ss, es)
    ensures Last(ss).tasks == map[0 := Revoking({}), 1 := Calling(id, STALE_LOGIN)]
    ensures Last(ss).store.byId == map[id := STALE_LOGIN]
    ensures REPLACEMENT !in Last(ss).tokens
  {
    ss, es := LogsIn(id);
    assert STALE_LOGIN.EndsAt() == 30 * DAY;
    ss, es := NextRequestPresents(ss, es, 1, id, 1, 1, 0);
  }

  lemma LosesTheAnswer(ss: seq<State>, es: seq<Event>, t: TaskId, id: SessionId)
      returns (ss': seq<State>, es': seq<Event>)
    requires IsRun(ss, es) && TurnTakers(Last(ss), id) == {t} && REPLACEMENT !in Last(ss).tokens
    requires t in Last(ss).tasks && Last(ss).tasks[t] == Calling(id, STALE_LOGIN)
    ensures IsRun(ss', es')
    ensures Last(ss').tasks == Last(ss).tasks[t := Done(Cancelled)] && Last(ss').store == Last(ss).store
    ensures FIRST in Last(ss').rotated && TurnTakers(Last(ss'), id) == {}
  {
    var s := Last(ss);
    RunInv(ss, es, |es|);
    AnswerThenCancel(s, t, id);
    var answer := Answer(t, Tokens(SECOND_ACCESS, Some(REPLACEMENT), HOUR), 1, 1, 60 * DAY);
    ss', es' := AndThen(ss, es, answer, Apply(s, answer));
    ss', es' := AndThen(ss', es', Cancel(t), Apply(Apply(s, answer), Cancel(t)));
  }

  /**
   * "No replaced token is ever presented again" is false once a request may go away between Hydra's
   * answer and the store: here is a run in which one is.
   */
  lemma LostAnswerIsPresentedAgain() returns (ss: seq<State>, es: seq<Event>, j: nat)
    ensures IsRun(ss, es) && j < |es|
    ensures FIRST in ss[j].rotated && Presents(ss[j], es[j], FIRST)
  {
    var id := 7;
    ss, es := FirstPresentation(id);
    assert TurnTakers(Last(ss), id) == {1};
    ss, es := LosesTheAnswer(ss, es, 1, id);
    var unused := Above(Last(ss).locks.strong.Keys);
    assert STALE_LOGIN.EndsAt() == 30 * DAY;
    ss, es := NextRequestPresents(ss, es, 2, id, 1, 1, unused);
    j := |es| - 1;
  }

  // ----- Served after the session's end

  /** Hydra answers without a new refresh token; the request stores the access token and is served. */
  lemma AnswerThenServe(s: State, t: TaskId, id: SessionId, now: Time)
    requires t in s.tasks && s.tasks[t].Calling? && s.tasks[t].id == id && t in s.locks.handles && id in s.store.byId
    ensures var answer := Answer(t, Tokens(SECOND_ACCESS, None, HOUR), now, now, 0);
      && Enabled(s, answer)
      && Enabled(Apply(s, answer), Commit(t))
      && Enabled(Apply(Apply(s, answer), Commit(t)), Leave(t))
      && var served := Apply(Apply(Apply(s, answer), Commit(t)), Leave(t));
         t in served.tasks && served.tasks[t] == Done(Bearer(SECOND_ACCESS))
  {
    var answered := DoAnswer(s, t, Tokens(SECOND_ACCESS, None, HOUR), now, now, 0);
    assert answered.tasks[t].Storing?;
    var stored := DoCommit(answered, t);
    assert stored.tasks[t] == Leaving(id, Bearer(SECOND_ACCESS));
  }

  lemma IsServed(ss: seq<State>, es: seq<Event>, t: TaskId, id: SessionId, now: Time)
      returns (ss': seq<State>, es': seq<Event>)
    requires IsRun(ss, es) && t in Last(ss).tasks && Last(ss).tasks[t].Calling? && Last(ss).tasks[t].id == id
    requires t in Last(ss).locks.handles && id in Last(ss).store.byId
    ensures IsRun(ss', es') && ss <= ss' && es <= es'
    ensures t in Last(ss').tasks && Last(ss').tasks[t] == Done(Bearer(SECOND_ACCESS))
  {
    var s := Last(ss);
    AnswerThenServe(s, t, id, now);
    var answer := Answer(t, Tokens(SECOND_ACCESS, None, HOUR), now, now, 0);
    ss', es' := AndThen(ss, es, answer, Apply(s, answer));
    ss', es' := AndThen(ss', es', Commit(t), Apply(Apply(s, answer), Commit(t)));
    ss', es' := AndThen(ss', es', Leave(t), Apply(Apply(Apply(s, answer), Commit(t)), Leave(t)));
  }

  /** A request at the end of the queue, while the one before it waits for Hydra. */
  ghost predicate Behind(s: State, t: TaskId, u: TaskId, id: SessionId) {
    && t != u && t in s.tasks && u in s.tasks && u in s.locks.handles
    && s.tasks[u].Calling? && s.tasks[u].id == id
    && TurnTakers(s, id) <= {t, u}
  }

  lemma Queues(s: State, t: TaskId, u: TaskId, id: SessionId, unused: Lock)
    requires TurnsOk(s) && Behind(s, t, u, id) && s.tasks[t] == Asking(id) && unused !in s.locks.strong
    ensures Enabled(s, Ask(t, unused))
    ensures Apply(s, Ask(t, unused)).tasks == s.tasks[t := Queued(id)] && Apply(s, Ask(t, unused)).store == s.store
    ensures Behind(Apply(s, Ask(t, unused)), t, u, id)
  {
    var after := Apply(s, Ask(t, unused));
    forall w | w in TurnTakers(after, id) ensures w in {t, u} {
      assert w == t || w in TurnTakers(s, id);
    }
  }

  /** Hydra does not answer the one before, which hands the turn over. */
  lemma FirstGivesUp(s: State, t: TaskId, u: TaskId, id: SessionId, later: Time)
    requires Behind(s, t, u, id) && s.tasks[t] == Queued(id)
    ensures var failed := Answer(u, Failed, later, later, 0);
      && Enabled(s, failed)
      && Enabled(Apply(s, failed), Leave(u))
      && var free := Apply(Apply(s, failed), Leave(u));
         free.tasks == s.tasks[u := Done(RefreshUnavailable)] && free.store == s.store && TurnTakers(free, id) <= {t}
  {
    var failed := Answer(u, Failed, later, later, 0);
    var free := Apply(Apply(s, failed), Leave(u));
    assert free.tasks == s.tasks[u := Done(RefreshUnavailable)];
    forall w | w in TurnTakers(free, id) ensures w == t {
      assert w in TurnTakers(s, id);
    }
  }

  /** The only one who waits for a turn may have it. */
  lemma AloneIsFree(s: State, t: TaskId, id: SessionId)
    requires TurnsOk(s) && t in s.tasks && s.tasks[t] == Queued(id) && TurnTakers(s, id) <= {t}
    ensures Enabled(s, Grant(t))
  {
    assert TurnOk(s, t);
    forall w | w in s.locks.handles && s.locks.handles[w].lock == s.locks.handles[t].lock
      ensures s.locks.handles[w].phase.Waiting?
    {
      assert TurnOk(s, w);
      assert w in TurnTakers(s, id);
    }
  }

  lemma GoesOn(s: State, t: TaskId, id: SessionId, later: Time) returns (granted: State, again: State, called: State)
    requires TurnsOk(s) && t in s.tasks && s.tasks[t] == Queued(id) && TurnTakers(s, id) <= {t}
    requires id in s.store.byId && !IsFresh(s.store.byId[id], later)
    ensures Leads(s, Grant(t), granted) && Leads(granted, Reread(t), again) && Leads(again, Recheck(t, later), called)
    ensures again.store == s.store && called.store == s.store && t in called.locks.handles
    ensures t in called.tasks && called.tasks[t] == Calling(id, s.store.byId[id])
  {
    AloneIsFree(s, t, id);
    granted := Apply(s, Grant(t));
    again := Apply(granted, Reread(t));
    assert again.tasks[t] == Rechecking(id, s.store.byId[id]);
    called := Apply(again, Recheck(t, later));
  }

  lemma HasTheTurnToItself(ss: seq<State>, es: seq<Event>, t: TaskId, u: TaskId, id: SessionId, later: Time, unused: Lock)
      returns (ss': seq<State>, es': seq<Event>)
    requires IsRun(ss, es) && Behind(Last(ss), t, u, id) && Last(ss).tasks[t] == Asking(id)
    requires unused !in Last(ss).locks.strong
    ensures IsRun(ss', es') && ss <= ss' && es <= es' && Last(ss').store == Last(ss).store
    ensures t in Last(ss').tasks && Last(ss').tasks[t] == Queued(id) && TurnTakers(Last(ss'), id) <= {t}
  {
    RunInv(ss, es, |es|);
    Queues(Last(ss), t, u, id, unused);
    ss', es' := AndThen(ss, es, Ask(t, unused), Apply(Last(ss), Ask(t, unused)));
    FirstGivesUp(Last(ss'), t, u, id, later);
    var failed := Answer(u, Failed, later, later, 0);
    ss', es' := AndThen(ss', es', failed, Apply(Last(ss'), failed));
    ss', es' := AndThen(ss', es', Leave(u), Apply(Last(ss'), Leave(u)));
  }

  lemma GoesOnAndIsServed(ss: seq<State>, es: seq<Event>, t: TaskId, id: SessionId, later: Time)
      returns (ss': seq<State>, es': seq<Event>, k: nat)
    requires IsRun(ss, es) && t in Last(ss).tasks && Last(ss).tasks[t] == Queued(id) && TurnTakers(Last(ss), id) <= {t}
    requires id in Last(ss).store.byId && !IsFresh(Last(ss).store.byId[id], later)
    ensures IsRun(ss', es') && ss <= ss' && es <= es'
    ensures |es| <= k < |es'| && es'[k] == Recheck(t, later) && ss'[k].store == Last(ss).store
    ensures t in Last(ss').tasks && Last(ss').tasks[t] == Done(Bearer(SECOND_ACCESS))
  {
    k := |es| + 2;
    ss', es' := TakesTheTurn(ss, es, t, id, later);
    ss', es' := IsServed(ss', es', t, id, later);
  }

  lemma TakesTheTurn(ss: seq<State>, es: seq<Event>, t: TaskId, id: SessionId, later: Time)
      returns (ss': seq<State>, es': seq<Event>)
    requires IsRun(ss, es) && t in Last(ss).tasks && Last(ss).tasks[t] == Queued(id) && TurnTakers(Last(ss), id) <= {t}
    requires id in Last(ss).store.byId && !IsFresh(Last(ss).store.byId[id], later)
    ensures IsRun(ss', es') && ss <= ss' && es' == es + [Grant(t), Reread(t), Recheck(t, later)]
    ensures ss'[|es| + 2].store == Last(ss).store && Last(ss').store == Last(ss).store
    ensures t in Last(ss').locks.handles
    ensures t in Last(ss').tasks && Last(ss').tasks[t] == Calling(id, Last(ss).store.byId[id])
  {
    RunInv(ss, es, |es|);
    var granted, again, called := GoesOn(Last(ss), t, id, later);
    ss', es' := AndThen(ss, es, Grant(t), granted);
    ss', es' := AndThen(ss', es', Reread(t), again);
    ss', es' := AndThen(ss', es', Recheck(t, later), called);
  }

  /** How a request begins that looks at its session at `now`. */
  function Beginning(t: TaskId, id: SessionId, now: Time): seq<Event> {
    [Open(t, id), Read(t), Check(t, now, now)]
  }

  /**
   * From where `ss` and `es` end, request `t` of session `id` looks at it at `now`, looks again at
   * `later` and is served, whatever else happens meanwhile.
   */
  ghost predicate LateService(ss: seq<State>, es: seq<Event>, ss': seq<State>, es': seq<Event>,
                              t: TaskId, id: SessionId, now: Time, later: Time)
  {
    && IsRun(ss', es') && ss <= ss' && es + Beginning(t, id, now) <= es'
    && (exists k | |es| + 3 <= k < |es'| :: es'[k] == Recheck(t, later))
    && t in Last(ss').tasks && Last(ss').tasks[t].Done? && Last(ss').tasks[t].outcome.Bearer?
  }

  /** Behind another request whose call to Hydra fails, one that came before the end is served at `later`. */
  lemma LateServiceExists(ss: seq<State>, es: seq<Event>, t: TaskId, id: SessionId, now: Time, later: Time)
      returns (ss': seq<State>, es': seq<Event>, k: nat)
    requires IsRun(ss, es) && t !in Last(ss).tasks && id in Last(ss).store.byId && TurnTakers(Last(ss), id) == {}
    requires !IsFresh(Last(ss).store.byId[id], now) && now < Last(ss).store.byId[id].EndsAt() && now <= later
    ensures LateService(ss, es, ss', es', t, id, now, later)
    ensures k < |es'| && es'[k] == Recheck(t, later) && ss'[k].store == Last(ss).store
  {
    var s := Last(ss);
    ReadsAndFindsStale(s, t, id, now);
    ss', es' := AndThen(ss, es, Open(t, id), Moved(s, t, Opened(id)));
    ss', es' := AndThen(ss', es', Read(t), Moved(s, t, Checking(id, s.store.byId[id])));
    ss', es' := AndThen(ss', es', Check(t, now, now), Moved(s, t, Asking(id)));
    assert es' == es + Beginning(t, id, now);
    ss', es', k := ServedBehindAnother(ss', es', t, id, now, later);
  }

  lemma ServedBehindAnother(ss: seq<State>, es: seq<Event>, t: TaskId, id: SessionId, now: Time, later: Time)
      returns (ss': seq<State>, es': seq<Event>, k: nat)
    requires IsRun(ss, es) && t in Last(ss).tasks && Last(ss).tasks[t] == Asking(id)
    requires id in Last(ss).store.byId && TurnTakers(Last(ss), id) == {}
    requires !IsFresh(Last(ss).store.byId[id], now) && now < Last(ss).store.byId[id].EndsAt() && now <= later
    ensures IsRun(ss', es') && ss <= ss' && es <= es'
    ensures |es| <= k < |es'| && es'[k] == Recheck(t, later) && ss'[k].store == Last(ss).store
    ensures t in Last(ss').tasks && Last(ss').tasks[t] == Done(Bearer(SECOND_ACCESS))
  {
    var s := Last(ss);
    var u := Above(s.tasks.Keys);
    var unused := Above(s.locks.strong.Keys);
    ss', es' := NextRequestPresents(ss, es, u, id, now, now, unused);
    var called := Last(ss');
    forall w | w in TurnTakers(called, id) ensures w == u {
      assert w == u || w in TurnTakers(s, id);
    }
    unused := Above(called.locks.strong.Keys);
    ss', es' := HasTheTurnToItself(ss', es', t, u, id, later, unused);
    ss', es', k := GoesOnAndIsServed(ss', es', t, id, later);
  }

  /**
   * "No request of an ended session is served" is false, and this is how far: a stale session that
   * nobody is at, in any reachable state, can be served at any `later` at or past its end to a request
   * that first looked at `now` if and only if that was before the end.
   */
  lemma ServedLateIff(ss: seq<State>, es: seq<Event>, t: TaskId, id: SessionId, now: Time, later: Time)
    requires IsRun(ss, es) && t !in Last(ss).tasks && id in Last(ss).store.byId && TurnTakers(Last(ss), id) == {}
    requires !IsFresh(Last(ss).store.byId[id], now)
    requires Last(ss).store.byId[id].EndsAt() <= later && now <= later
    ensures (exists ss', es' :: LateService(ss, es, ss', es', t, id, now, later))
       <==> now < Last(ss).store.byId[id].EndsAt()
  {
    if now < Last(ss).store.byId[id].EndsAt() {
      var ss', es', _ := LateServiceExists(ss, es, t, id, now, later);
    }
    forall ss', es' | LateService(ss, es, ss', es', t, id, now, later)
      ensures now < Last(ss).store.byId[id].EndsAt()
    {
      BeginsWith(ss, es, ss', es', t, id, now);
      if now >= Last(ss).store.byId[id].EndsAt() {
        TooLateIsNeverServed(ss', es', |es| + 2, |ss'| - 1, t);
      }
    }
  }

  lemma BeginsWith(ss: seq<State>, es: seq<Event>, ss': seq<State>, es': seq<Event>, t: TaskId, id: SessionId, now: Time)
    requires IsRun(ss, es) && id in Last(ss).store.byId
    requires IsRun(ss', es') && ss <= ss' && es + Beginning(t, id, now) <= es'
    ensures es'[|es| + 2] == Check(t, now, now)
    ensures t in ss'[|es| + 2].tasks && ss'[|es| + 2].tasks[t] == Checking(id, Last(ss).store.byId[id])
  {
    var n := |es|;
    assert ss'[n] == Last(ss);
    var begun := es + Beginning(t, id, now);
    assert es'[n] == begun[n] && es'[n + 1] == begun[n + 1] && es'[n + 2] == begun[n + 2];
    assert IsStep(ss', es', n) && es'[n] == Open(t, id);
    assert IsStep(ss', es', n + 1) && es'[n + 1] == Read(t);
    assert es'[n + 2] == Check(t, now, now);
  }

  /** A run in which a session's thirty days end while its request waits, and the request is served, its refresh token still good. */
  lemma ServedAfterTheEnd() returns (ss: seq<State>, es: seq<Event>, j: nat, t: TaskId, id: SessionId)
    ensures IsRun(ss, es) && j < |es|
    ensures es[j].Recheck? && es[j].t == t
    ensures id in ss[j].store.byId
    ensures ss[j].store.byId[id].EndsAt() <= es[j].now < ss[j].store.byId[id].refreshExpiresAt
    ensures t in Last(ss).tasks && Last(ss).tasks[t].Done? && Last(ss).tasks[t].outcome.Bearer?
  {
    id, t := 7, 1;
    ss, es := LogsIn(id);
    assert STALE_LOGIN.EndsAt() == 30 * DAY;
    ss, es, j := LateServiceExists(ss, es, t, id, 30 * DAY - 1, 30 * DAY);
  }
}
