// What a caller sees of each step of the session protocol, and of the steps of one call together.

module ProtocolSteps {
  import opened Clock
  import opened Wrappers
  import opened Sets
  import opened Session
  import opened SessionStore
  import opened RefreshLock
  import opened Protocol
  import opened ProtocolInvariant
  import opened ProtocolRuns

  /** The session is stored after the step exactly if it was before, and as it was. */
  predicate Untouched(s: State, after: State, id: SessionId) {
    && (id in after.store.byId <==> id in s.store.byId)
    && (id in s.store.byId ==> after.store.byId[id] == s.store.byId[id])
  }

  predicate SameTask(s: State, after: State, t: TaskId) {
    && (t in after.tasks <==> t in s.tasks)
    && (t in s.tasks ==> after.tasks[t] == s.tasks[t])
  }

  /** What is left to `t` to revoke is exactly `owed`. */
  ghost predicate OwesExactly(s: State, t: TaskId, owed: set<Token>) {
    t in s.tasks && forall r :: s.tasks[t].Owes(r) <==> r in owed
  }

  // ----- Ending sessions

  /** A logout takes its session out of the store, leaves all others alone, and is left with its token to revoke. */
  lemma LogoutEnds(s: State, t: TaskId, id: SessionId)
    requires Enabled(s, EndSession(t, id))
    ensures var after := Apply(s, EndSession(t, id));
      && id !in after.store.byId
      && (forall x :: x != id ==> Untouched(s, after, x))
      && OwesExactly(after, t, if id in s.store.byId then {s.store.byId[id].refresh} else {})
      && (forall u :: u != t ==> SameTask(s, after, u))
  {
  }

  /** Ending by selector takes out exactly the sessions it matches and owes exactly their tokens. */
  lemma SelectedEnd(s: State, t: TaskId, sel: Selector)
    requires Enabled(s, EndSessions(t, sel))
    ensures var after := Apply(s, EndSessions(t, sel));
      && (forall x :: x in after.store.byId ==> !sel.Matches(after.store.byId[x]))
      && (forall x :: x in s.store.byId && !sel.Matches(s.store.byId[x]) ==> Untouched(s, after, x))
      && (forall x :: x !in s.store.byId ==> x !in after.store.byId)
      && OwesExactly(after, t, set x | x in s.store.byId && sel.Matches(s.store.byId[x]) :: s.store.byId[x].refresh)
      && (forall u :: u != t ==> SameTask(s, after, u))
  {
    var after := Apply(s, EndSessions(t, sel));
    assert RefreshTokens(s.store, s.store.Matching(sel))
        == set x | x in s.store.byId && sel.Matches(s.store.byId[x]) :: s.store.byId[x].refresh;
    forall x | x in after.store.byId ensures !sel.Matches(after.store.byId[x]) {
      assert x !in s.store.Matching(sel);
    }
    forall x | x in s.store.byId && !sel.Matches(s.store.byId[x]) ensures Untouched(s, after, x) {
      assert x !in s.store.Matching(sel);
    }
  }

  /** The sweep drops exactly the sessions whose refresh token or thirty days have run out. */
  lemma SweepEndsTheExpired(s: State, now: Time, id: SessionId)
    requires Enabled(s, Sweep(now))
    ensures var after := Apply(s, Sweep(now));
      && (id in after.store.byId <==>
            id in s.store.byId && now < s.store.byId[id].refreshExpiresAt && now < s.store.byId[id].createdAt + 30 * DAY)
      && (id in after.store.byId ==> Untouched(s, after, id))
      && after.tasks == s.tasks && after.asked == s.asked
  {
  }

  /** The tokens of the sessions that a login pushes out, its own included. */
  function PushedOut(before: Store, after: Store, id: SessionId, data: SessionData): set<Token> {
    set x | x in before.byId.Keys + {id} && x !in after.byId :: if x == id then data.refresh else before.byId[x].refresh
  }

  /** A login stores its session and touches no other but those it pushes out, all of them its user's. */
  lemma LoginStores(s: State, t: TaskId, id: SessionId, data: SessionData)
    requires Inv(s) && Enabled(s, Login(t, id, data))
    ensures var after := Apply(s, Login(t, id, data));
      && (forall x :: x in after.store.byId ==> if x == id then after.store.byId[x] == data else Untouched(s, after, x))
      && (forall x :: x in s.store.byId && x !in after.store.byId ==> s.store.byId[x].user == data.user)
  {
    var ins, out := Inserted(s.store, id, data), Evicted(s.store, id, data);
    SaveConserves(s.store, id, data);
    InsertedValid(s.store, id, data);
    forall x | x in s.store.byId && x !in Saved(s.store, id, data).byId ensures s.store.byId[x].user == data.user {
      assert x in out && x in ins.Ids(data.user) && ins.Owns(data.user, x);
    }
  }

  /** It stays if it is as new as the user's others; with room for it, nobody is pushed out at all. */
  lemma LoginStays(s: State, t: TaskId, id: SessionId, data: SessionData)
    requires Inv(s) && Enabled(s, Login(t, id, data))
    ensures (forall x :: x in s.store.byId && s.store.byId[x].user == data.user ==> s.store.byId[x].createdAt <= data.createdAt)
      ==> id in Apply(s, Login(t, id, data)).store.byId
  {
    if forall x :: x in s.store.byId && s.store.byId[x].user == data.user ==> s.store.byId[x].createdAt <= data.createdAt {
      SaveKeepsTheNewest(s.store, id, data);
    }
  }

  lemma LoginFindsRoom(s: State, t: TaskId, id: SessionId, data: SessionData)
    requires Inv(s) && Enabled(s, Login(t, id, data)) && |s.store.Ids(data.user)| < 20
    ensures id in Apply(s, Login(t, id, data)).store.byId
    ensures forall x :: x != id ==> Untouched(s, Apply(s, Login(t, id, data)), x)
  {
    SaveConserves(s.store, id, data);
    RoomForOneMore(s.store, id, data);
  }

  /** What it pushes out, and only that, is left to it to revoke. */
  lemma LoginOwes(s: State, t: TaskId, id: SessionId, data: SessionData)
    requires Inv(s) && Enabled(s, Login(t, id, data))
    ensures OwesExactly(Apply(s, Login(t, id, data)), t, PushedOut(s.store, Apply(s, Login(t, id, data)).store, id, data))
    ensures forall u :: u != t ==> SameTask(s, Apply(s, Login(t, id, data)), u)
  {
    PushedOutAreEvicted(s.store, id, data);
  }

  lemma PushedOutAreEvicted(st: Store, id: SessionId, data: SessionData)
    requires st.Valid() && id !in st.byId
    ensures RefreshTokens(Inserted(st, id, data), Elements(Evicted(st, id, data))) == PushedOut(st, Saved(st, id, data), id, data)
  {
    EvictedAreGone(st, id, data);
    InsertedIs(st, id, data, data.user);
    SameTokens(st, Inserted(st, id, data), Saved(st, id, data), Elements(Evicted(st, id, data)), id, data);
  }

  lemma EvictedAreGone(st: Store, id: SessionId, data: SessionData)
    requires st.Valid() && id !in st.byId
    ensures forall x :: x in Elements(Evicted(st, id, data)) <==> x in st.byId.Keys + {id} && x !in Saved(st, id, data).byId
  {
    SaveConserves(st, id, data);
    ElementsAreMembers(Evicted(st, id, data));
  }

  lemma SameTokens(st: Store, ins: Store, after: Store, out: set<SessionId>, id: SessionId, data: SessionData)
    requires ins.byId == st.byId[id := data] && id !in st.byId
    requires forall x :: x in out <==> x in st.byId.Keys + {id} && x !in after.byId
    ensures RefreshTokens(ins, out) == PushedOut(st, after, id, data)
  {
    forall r | r in RefreshTokens(ins, out) ensures r in PushedOut(st, after, id, data) {
      var x :| x in out && x in ins.byId && ins.byId[x].refresh == r;
      assert r == if x == id then data.refresh else st.byId[x].refresh;
    }
    forall r | r in PushedOut(st, after, id, data) ensures r in RefreshTokens(ins, out) {
      var x :| x in st.byId.Keys + {id} && x !in after.byId && r == if x == id then data.refresh else st.byId[x].refresh;
      assert x in out && ins.byId[x].refresh == r;
    }
  }

  lemma RoomForOneMore(st: Store, id: SessionId, data: SessionData)
    requires st.Valid() && id !in st.byId && |st.Ids(data.user)| < 20
    ensures Evicted(st, id, data) == []
  {
    InsertedValid(st, id, data);
    WithoutIds(st, {id}, data.user);
    KeptAll(st.Ids(data.user), {id});
  }

  /** A refused refresh token takes its session with it, and nothing else. */
  lemma RefusalEndsTheSession(s: State, t: TaskId)
    requires Enabled(s, Drop(t))
    ensures var after, id := Apply(s, Drop(t)), s.tasks[t].id;
      && id !in after.store.byId && (forall x :: x != id ==> Untouched(s, after, x))
      && after.tasks[t] == Leaving(id, RefreshRefused) && after.asked == s.asked
  {
  }

  /** Nothing else touches the sessions. */
  lemma OthersTouchNoSession(s: State, e: Event)
    requires Enabled(s, e)
    requires !e.EndSession? && !e.EndSessions? && !e.Sweep? && !e.Login? && !e.Drop? && !e.Commit?
    ensures Apply(s, e).store == s.store && Apply(s, e).used == s.used
  {
  }

  /** A request that goes away changes no session and asks for nothing. */
  lemma CancelTouchesNoSession(s: State, t: TaskId)
    requires Enabled(s, Cancel(t))
    ensures var after := Apply(s, Cancel(t));
      && after.store == s.store && after.asked == s.asked
      && after.tasks[t] == Done(Cancelled) && t !in after.locks.handles
      && (s.tasks[t].Calling? ==> s.tasks[t].data.refresh in after.unheard)
      && (forall u :: u != t ==> SameTask(s, after, u))
  {
  }

  /**
   * A logout leaves nothing of its session: it is gone for good, and once the tasks are through, each of
   * its refresh tokens was replaced or is asked to be revoked.
   */
  lemma LogoutLeavesNothing(ss: seq<State>, es: seq<Event>, i: nat, j: nat, t: TaskId, id: SessionId, r: Token)
    requires IsRun(ss, es) && i < j < |ss| && Uncancelled(es, j)
    requires es[i] == EndSession(t, id) && id in ss[i].store.byId
    ensures id !in ss[j].store.byId
    ensures Quiet(ss[j]) && r in ss[j].tokens && ss[j].tokens[r].session == id ==>
      ss[j].tokens[r].fate.Superseded? || r in ss[j].asked
  {
    RunInv(ss, es, i);
    LogoutEnds(ss[i], t, id);
    EndedStaysEnded(ss, es, i, j, id);
    if Quiet(ss[j]) && r in ss[j].tokens && ss[j].tokens[r].session == id {
      EndedSessionLeavesNothing(ss, es, i, j, id, r);
    }
  }

  /** So does a back-channel logout or a revocation of every session it matches. */
  lemma SelectedLeaveNothing(ss: seq<State>, es: seq<Event>, i: nat, j: nat, t: TaskId, sel: Selector, id: SessionId, r: Token)
    requires IsRun(ss, es) && i < j < |ss| && Uncancelled(es, j)
    requires es[i] == EndSessions(t, sel) && id in ss[i].store.byId && sel.Matches(ss[i].store.byId[id])
    ensures id !in ss[j].store.byId
    ensures Quiet(ss[j]) && r in ss[j].tokens && ss[j].tokens[r].session == id ==>
      ss[j].tokens[r].fate.Superseded? || r in ss[j].asked
  {
    RunInv(ss, es, i);
    SelectedEnd(ss[i], t, sel);
    SelectedIsGone(ss[i + 1], ss[i], sel, id);
    EndedStaysEnded(ss, es, i, j, id);
    if Quiet(ss[j]) && r in ss[j].tokens && ss[j].tokens[r].session == id {
      EndedSessionLeavesNothing(ss, es, i, j, id, r);
    }
  }

  lemma SelectedIsGone(after: State, s: State, sel: Selector, id: SessionId)
    requires id in s.store.byId && sel.Matches(s.store.byId[id])
    requires after.store == Without(s.store, s.store.Matching(sel))
    ensures id !in after.store.byId
  {
    assert id in s.store.Matching(sel);
  }

  lemma EndedStaysEnded(ss: seq<State>, es: seq<Event>, i: nat, j: nat, id: SessionId)
    requires IsRun(ss, es) && i < j < |ss| && id in ss[i].store.byId && id !in ss[i + 1].store.byId
    ensures id !in ss[j].store.byId
  {
    RunInv(ss, es, i);
    UsedGrows(ss, es, i, i + 1);
    NoResurrection(ss, es, i + 1, j, id);
  }

  // ----- Only the dead are revoked

  ghost predicate OfGoneSession(s: State, r: Token) {
    r in s.tokens && s.tokens[r].session in s.used && s.tokens[r].session !in s.store.byId
  }

  ghost predicate OwesTheDead(s: State, t: TaskId) {
    t in s.tasks ==> forall r :: s.tasks[t].Owes(r) ==> OfGoneSession(s, r)
  }

  lemma StaysOfGoneSession(s: State, e: Event, r: Token)
    requires Inv(s) && Enabled(s, e) && OfGoneSession(s, r)
    ensures OfGoneSession(Apply(s, e), r)
  {
    FateIsHistory(s, e, r);
    StaysGone(s, e, s.tokens[r].session);
  }

  /** The tokens of the sessions that a step takes out are tokens of sessions that are gone then. */
  lemma TakenOutAreGone(s: State, e: Event, id: SessionId)
    requires Inv(s) && Enabled(s, e) && id in s.store.byId && id !in Apply(s, e).store.byId
    ensures OfGoneSession(Apply(s, e), s.store.byId[id].refresh)
  {
    assert HeldOk(s, id);
    FateIsHistory(s, e, s.store.byId[id].refresh);
    InvKept(s, e);
    assert TokenOk(Apply(s, e), s.store.byId[id].refresh);
  }

  lemma OwesTheDeadKept(s: State, e: Event, t: TaskId, r: Token)
    requires Inv(s) && Enabled(s, e) && OwesTheDead(s, t)
    requires t in Apply(s, e).tasks && Apply(s, e).tasks[t].Owes(r)
    ensures OfGoneSession(Apply(s, e), r)
  {
    if t in s.tasks && s.tasks[t].Owes(r) {
      StaysOfGoneSession(s, e, r);
    } else if t in s.tasks && !Concerns(e, t) {
      OthersStay(s, e, t);
    } else if e.EndSession? {
      LogoutEnds(s, t, e.id);
      TakenOutAreGone(s, e, e.id);
    } else if e.EndSessions? {
      SelectedEnd(s, t, e.sel);
      var x :| x in s.store.byId && e.sel.Matches(s.store.byId[x]) && s.store.byId[x].refresh == r;
      SelectedIsGone(Apply(s, e), s, e.sel, x);
      TakenOutAreGone(s, e, x);
    } else if e.Login? {
      LoginOwesTheDead(s, e, t, r);
    } else {
      DisownsTheDead(s, e, t, r);
    }
  }

  lemma LoginOwesTheDead(s: State, e: Event, t: TaskId, r: Token)
    requires Inv(s) && Enabled(s, e) && e.Login? && e.t == t && Apply(s, e).tasks[t].Owes(r)
    ensures OfGoneSession(Apply(s, e), r)
  {
    var after := Apply(s, e);
    LoginOwes(s, t, e.id, e.data);
    assert r in PushedOut(s.store, after.store, e.id, e.data);
    var x :| x in s.store.byId.Keys + {e.id} && x !in after.store.byId
      && r == if x == e.id then e.data.refresh else s.store.byId[x].refresh;
    if x == e.id {
      assert e.data.refresh in after.tokens && after.tokens[e.data.refresh].session == e.id && e.id in after.used;
    } else {
      TakenOutAreGone(s, e, x);
    }
  }

  lemma DisownsTheDead(s: State, e: Event, t: TaskId, r: Token)
    requires Inv(s) && Enabled(s, e) && Concerns(e, t) && !e.EndSession? && !e.EndSessions? && !e.Login?
    requires t in Apply(s, e).tasks && Apply(s, e).tasks[t].Owes(r) && !(t in s.tasks && s.tasks[t].Owes(r))
    ensures OfGoneSession(Apply(s, e), r)
  {
    assert TaskOk(s, t);
    assert e.Commit?;
    InvKept(s, e);
    assert TaskOk(Apply(s, e), t);
  }

  lemma {:induction false} OwesTheDeadAlways(ss: seq<State>, es: seq<Event>, i: nat, r: Token)
    requires IsRun(ss, es) && i < |ss|
    ensures forall t :: OwesTheDead(ss[i], t)
    ensures r in ss[i].asked ==> OfGoneSession(ss[i], r)
  {
    if i > 0 {
      OwesTheDeadAlways(ss, es, i - 1, r);
      RunInv(ss, es, i - 1);
      var s, e, after := ss[i - 1], es[i - 1], ss[i];
      forall t | t in after.tasks ensures OwesTheDead(after, t) {
        forall q | after.tasks[t].Owes(q) ensures OfGoneSession(after, q) {
          OwesTheDeadKept(s, e, t, q);
        }
      }
      if r in after.asked {
        if r in s.asked {
          StaysOfGoneSession(s, e, r);
        } else {
          assert OwesTheDead(s, e.t);
          StaysOfGoneSession(s, e, r);
        }
      }
    }
  }

  /** Hydra is never asked to revoke the refresh token of a session that lives, whatever the interleaving. */
  lemma TheLivingAreNeverRevoked(ss: seq<State>, es: seq<Event>, i: nat, id: SessionId)
    requires IsRun(ss, es) && i < |ss| && id in ss[i].store.byId
    ensures ss[i].store.byId[id].refresh !in ss[i].asked
  {
    RunInv(ss, es, i);
    assert HeldOk(ss[i], id);
    OwesTheDeadAlways(ss, es, i, ss[i].store.byId[id].refresh);
  }

  // ----- Resolving a bearer token

  /** Both reads see what is stored then, or that nothing is. */
  lemma ReadsSeeTheStore(s: State, t: TaskId)
    ensures Enabled(s, Read(t)) ==>
      Apply(s, Read(t)).tasks[t] == if s.tasks[t].id in s.store.byId
        then Checking(s.tasks[t].id, s.store.byId[s.tasks[t].id]) else Done(Unauthenticated)
    ensures Enabled(s, Reread(t)) ==>
      Apply(s, Reread(t)).tasks[t] == if s.tasks[t].id in s.store.byId
        then Rechecking(s.tasks[t].id, s.store.byId[s.tasks[t].id]) else Leaving(s.tasks[t].id, Unauthenticated)
    ensures Enabled(s, Leave(t)) ==> Apply(s, Leave(t)).tasks[t] == Done(s.tasks[t].outcome)
  {
  }

  /** The first look: nothing for a session past its end; its own token with more than five seconds left; else the queue. */
  lemma FirstLook(s: State, t: TaskId, now: Time, later: Time)
    requires Enabled(s, Check(t, now, later))
    ensures var data, task := s.tasks[t].data, Apply(s, Check(t, now, later)).tasks[t];
      if data.refreshExpiresAt <= now || data.createdAt + 30 * DAY <= now then task == Done(Unauthenticated)
      else if data.expiresAt > later + 5 * SECOND then task == Done(Bearer(data.access))
      else task == Asking(s.tasks[t].id)
  {
  }

  /** The second look: the token with more than five seconds left, else, and only else, it is presented to Hydra. */
  lemma SecondLook(s: State, t: TaskId, now: Time)
    requires Enabled(s, Recheck(t, now))
    ensures var data, task := s.tasks[t].data, Apply(s, Recheck(t, now)).tasks[t];
      if data.expiresAt > now + 5 * SECOND
      then task == Leaving(s.tasks[t].id, Bearer(data.access)) && forall r :: !Presents(s, Recheck(t, now), r)
      else task == Calling(s.tasks[t].id, data) && forall r :: Presents(s, Recheck(t, now), r) <==> r == data.refresh
  {
    var e := Recheck(t, now);
    forall r, u | BeginsCall(s, Apply(s, e), u, r) ensures u == t {
      CallsBeginAtTheSecondLook(s, e, u, r);
    }
    if s.tasks[t].data.expiresAt <= now + 5 * SECOND {
      assert BeginsCall(s, Apply(s, e), t, s.tasks[t].data.refresh);
    }
  }

  /** A token is presented exactly by a second look that finds five seconds or less. */
  lemma PresentedIff(s: State, e: Event, r: Token)
    requires Enabled(s, e)
    ensures Presents(s, e, r) <==>
      e.Recheck? && s.tasks[e.t].data.refresh == r && s.tasks[e.t].data.expiresAt <= e.now + 5 * SECOND
  {
    if e.Recheck? {
      SecondLook(s, e.t, e.now);
    } else if t :| BeginsCall(s, Apply(s, e), t, r) {
      CallsBeginAtTheSecondLook(s, e, t, r);
      assert false;
    }
  }

  /** `t` looked, between `o` and `j`, at a session with access token `a` and more than five seconds left on it. */
  ghost predicate FoundFresh(ss: seq<State>, es: seq<Event>, o: nat, j: nat, t: TaskId, a: Token) {
    exists i | o < i < j && i < |es| && i < |ss| ::
      && t in ss[i].tasks && LooksFreshAt(ss[i].tasks[t], es[i], t, a)
  }

  /** Hydra answered `t`'s call, between `o` and `j`, with access token `a`. */
  ghost predicate GotFromHydra(es: seq<Event>, o: nat, j: nat, t: TaskId, a: Token) {
    exists i | o < i < j && i < |es| :: es[i].Answer? && es[i].t == t && es[i].reply.Tokens? && es[i].reply.access == a
  }

  ghost predicate ServedRightly(ss: seq<State>, es: seq<Event>, o: nat, j: nat, t: TaskId) {
    && j < |ss| && t in ss[j].tasks
    && var task := ss[j].tasks[t];
       && !task.Ending? && !task.Revoking?
       && (task.Storing? ==> GotFromHydra(es, o, j, t, task.next.access))
       && ((task.Leaving? || task.Done?) && task.outcome.Bearer? ==>
             FoundFresh(ss, es, o, j, t, task.outcome.access) || GotFromHydra(es, o, j, t, task.outcome.access))
  }

  lemma LaterToo(ss: seq<State>, es: seq<Event>, o: nat, j: nat, t: TaskId, a: Token)
    ensures FoundFresh(ss, es, o, j, t, a) ==> FoundFresh(ss, es, o, j + 1, t, a)
    ensures GotFromHydra(es, o, j, t, a) ==> GotFromHydra(es, o, j + 1, t, a)
  {
    if FoundFresh(ss, es, o, j, t, a) {
      var i :| o < i < j && i < |es| && i < |ss| && t in ss[i].tasks && LooksFreshAt(ss[i].tasks[t], es[i], t, a);
      assert o < i < j + 1;
    }
  }

  lemma {:induction false} ServedRightlyFrom(ss: seq<State>, es: seq<Event>, o: nat, j: nat, t: TaskId, id: SessionId)
    requires IsRun(ss, es) && o < j < |ss| && es[o] == Open(t, id)
    ensures ServedRightly(ss, es, o, j, t)
  {
    assert IsStep(ss, es, o);
    if j > o + 1 {
      ServedRightlyFrom(ss, es, o, j - 1, t, id);
      assert IsStep(ss, es, j - 1);
      var s, e := ss[j - 1], es[j - 1];
      var was, now := s.tasks[t], ss[j].tasks[t];
      OwnStep(s, e, t);
      if now.Storing? {
        LaterToo(ss, es, o, j - 1, t, now.next.access);
      } else if (now.Leaving? || now.Done?) && now.outcome.Bearer? {
        LaterToo(ss, es, o, j - 1, t, now.outcome.access);
        if LooksFreshAt(was, e, t, now.outcome.access) {
          assert FoundFresh(ss, es, o, j, t, now.outcome.access);
        }
      }
    }
  }

  /** Every token a request is served with had more than five seconds left at a look of its own, or is Hydra's answer to its own call. */
  lemma ServedWithAFreshToken(ss: seq<State>, es: seq<Event>, o: nat, j: nat, t: TaskId, id: SessionId, a: Token)
    requires IsRun(ss, es) && o < j < |ss| && es[o] == Open(t, id)
    requires t in ss[j].tasks && ss[j].tasks[t] == Done(Bearer(a))
    ensures
      || (exists i | o < i < j ::
           && t in ss[i].tasks && es[i].Check? && es[i].t == t && ss[i].tasks[t].Checking?
           && ss[i].tasks[t].data.access == a && ss[i].tasks[t].data.expiresAt > es[i].later + 5 * SECOND)
      || (exists i | o < i < j ::
           && t in ss[i].tasks && es[i].Recheck? && es[i].t == t && ss[i].tasks[t].Rechecking?
           && ss[i].tasks[t].data.access == a && ss[i].tasks[t].data.expiresAt > es[i].now + 5 * SECOND)
      || (exists i | o < i < j ::
           es[i].Answer? && es[i].t == t && es[i].reply.Tokens? && es[i].reply.access == a)
  {
    ServedRightlyFrom(ss, es, o, j, t, id);
    if FoundFresh(ss, es, o, j, t, a) {
      var i :| o < i < j && i < |es| && i < |ss| && t in ss[i].tasks && LooksFreshAt(ss[i].tasks[t], es[i], t, a);
      if es[i].Check? {
        assert ss[i].tasks[t].Checking?;
      } else {
        assert es[i].Recheck? && ss[i].tasks[t].Rechecking?;
      }
    }
  }

  /**
   * A session looked at before its end with more than five seconds left is served at that look with its
   * own token: the request neither asks for the turn nor presents anything, then or ever after.
   */
  lemma FreshIsServedAtOnce(ss: seq<State>, es: seq<Event>, c: nat, j: nat, t: TaskId)
    requires IsRun(ss, es) && c < j < |ss|
    requires es[c].Check? && es[c].t == t && t in ss[c].tasks && ss[c].tasks[t].Checking?
    requires var data := ss[c].tasks[t].data;
      && es[c].now < data.refreshExpiresAt && es[c].now < data.createdAt + 30 * DAY
      && data.expiresAt > es[c].later + 5 * SECOND
    ensures t in ss[j].tasks && ss[j].tasks[t] == Done(Bearer(ss[c].tasks[t].data.access))
    ensures j < |es| ==> !Concerns(es[j], t)
  {
    assert IsStep(ss, es, c);
    FirstLook(ss[c], t, es[c].now, es[c].later);
    DoneForever(ss, es, c + 1, j, t);
    if j < |es| {
      assert IsStep(ss, es, j);
      NothingAfterDone(ss[j], es[j], t);
    }
  }

  // ----- Storing a refresh

  /** Where Hydra's answer takes a request, and what it carries along. */
  lemma AnswerLeads(s: State, t: TaskId, reply: Reply, now: Time, later: Time, ttl: Duration)
    requires Enabled(s, Answer(t, reply, now, later, ttl))
    ensures var was, after := s.tasks[t], Apply(s, Answer(t, reply, now, later, ttl));
      && after.store == s.store && after.asked == s.asked && (forall u :: u != t ==> SameTask(s, after, u))
      && match reply
         case Rejected => after.tasks[t] == Dropping(was.id, was.data)
         case Failed => after.tasks[t] == Leaving(was.id, RefreshUnavailable) && was.data.refresh in after.unheard
         case Tokens(access, rotated, expiresIn) =>
           && (rotated.Some? ==> was.data.refresh in after.rotated)
           && after.tasks[t].Storing? && after.tasks[t].id == was.id && after.tasks[t].data == was.data
           && var next := after.tasks[t].next;
              && next.access == access && next.expiresAt == later + expiresIn
              && next.refresh == (if rotated.Some? then rotated.value else was.data.refresh)
              && next.refreshExpiresAt == (if rotated.Some? then now + ttl else was.data.refreshExpiresAt)
              && next.idToken == was.data.idToken && next.createdAt == was.data.createdAt
              && next.user == was.data.user && next.sid == was.data.sid
  {
  }

  /** The tokens are stored if the session is still there, and only then; otherwise they are left to be revoked. */
  lemma CommitStores(s: State, t: TaskId)
    requires Enabled(s, Commit(t))
    ensures var was, after := s.tasks[t], Apply(s, Commit(t));
      && (forall x :: x != was.id ==> Untouched(s, after, x))
      && (forall u :: u != t ==> SameTask(s, after, u))
      && if was.id in s.store.byId
         then was.id in after.store.byId && after.store.byId[was.id] == was.next
              && after.tasks[t] == Leaving(was.id, Bearer(was.next.access))
         else was.id !in after.store.byId && OwesExactly(after, t, {was.next.refresh})
  {
  }

  lemma {:induction false} HoldsTheAnswer(ss: seq<State>, es: seq<Event>, i: nat, j: nat, t: TaskId)
    requires IsRun(ss, es) && i < j < |ss|
    requires t in ss[i + 1].tasks
    requires forall k :: i < k < j ==> !Concerns(es[k], t)
    ensures t in ss[j].tasks && ss[j].tasks[t] == ss[i + 1].tasks[t]
  {
    if j > i + 1 {
      HoldsTheAnswer(ss, es, i, j - 1, t);
      assert IsStep(ss, es, j - 1);
      OthersStay(ss[j - 1], es[j - 1], t);
    }
  }

  /**
   * A refresh from Hydra's answer to the store, whatever others do in between: the session then holds the
   * new tokens with their own expiries, all else as it was; a session ended meanwhile stays ended.
   */
  lemma RefreshIsStored(ss: seq<State>, es: seq<Event>, i: nat, j: nat, t: TaskId)
    requires IsRun(ss, es) && i < j < |es| && es[i].Answer? && es[i].t == t && es[i].reply.Tokens? && es[j] == Commit(t)
    requires forall k :: i < k < j ==> !Concerns(es[k], t)
    ensures t in ss[i].tasks && ss[i].tasks[t].Calling?
    ensures var id, e, after := ss[i].tasks[t].id, es[i], ss[j + 1];
      if id in ss[j].store.byId then
        var was := ss[j].store.byId[id];
        && t in after.tasks && after.tasks[t] == Leaving(id, Bearer(e.reply.access))
        && id in after.store.byId && after.store.byId[id] == was.(
             access := e.reply.access,
             expiresAt := e.later + e.reply.expiresIn,
             refresh := if e.reply.rotated.Some? then e.reply.rotated.value else was.refresh,
             refreshExpiresAt := if e.reply.rotated.Some? then e.now + e.ttl else was.refreshExpiresAt)
      else id !in after.store.byId
  {
    assert IsStep(ss, es, i) && IsStep(ss, es, j);
    var e := es[i];
    AnswerLeads(ss[i], t, e.reply, e.now, e.later, e.ttl);
    HoldsTheAnswer(ss, es, i, j, t);
    RunInv(ss, es, j);
    assert TaskOk(ss[j], t);
    CommitStores(ss[j], t);
  }

  // ----- Nobody is stuck

  /** The task can take a step of its own, other than being cancelled. */
  ghost predicate Moves(s: State, t: TaskId) {
    exists e :: Enabled(s, e) && Concerns(e, t) && !e.Cancel?
  }

  predicate Through(task: Task) {
    task.Done? || task == Revoking({})
  }

  lemma WhoHasTheTurnMoves(s: State, t: TaskId)
    requires Inv(s) && t in s.tasks && s.tasks[t].HasTurn()
    ensures Moves(s, t)
  {
    assert TurnOk(s, t);
    var e := match s.tasks[t]
      case Rereading(_) => Reread(t)
      case Rechecking(_, _) => Recheck(t, 0)
      case Calling(_, _) => Answer(t, Failed, 0, 0, 0)
      case Storing(_, _, _) => Commit(t)
      case Dropping(_, _) => Drop(t)
      case Disowning(_, _) => Disown(t)
      case _ => Leave(t);
    assert Enabled(s, e) && Concerns(e, t);
  }

  lemma WithoutTheTurnMoves(s: State, t: TaskId)
    requires Inv(s) && t in s.tasks && !s.tasks[t].HasTurn() && !s.tasks[t].Queued? && !Through(s.tasks[t])
    ensures Moves(s, t)
  {
    var unused := Above(s.locks.strong.Keys);
    var e;
    match s.tasks[t] {
      case Opened(_) => e := Read(t);
      case Checking(_, _) => e := Check(t, 0, 0);
      case Asking(_) => e := Ask(t, unused);
      case Ending(_) => e := AskRevoke(t);
      case Revoking(owed) =>
        var r :| r in owed;
        e := RevokeOne(t, r);
    }
    assert Enabled(s, e) && Concerns(e, t);
  }

  /**
   * No deadlock: at every point of every run, each task that is not through can take a step, or waits for
   * the turn of one that can.
   */
  lemma NobodyIsStuck(ss: seq<State>, es: seq<Event>, i: nat, t: TaskId)
    requires IsRun(ss, es) && i < |ss| && t in ss[i].tasks && !Through(ss[i].tasks[t])
    ensures
      || Moves(ss[i], t)
      || (ss[i].tasks[t].Queued?
          && exists u :: u in ss[i].tasks && ss[i].tasks[u].HasTurn() && ss[i].tasks[u].id == ss[i].tasks[t].id && Moves(ss[i], u))
  {
    RunInv(ss, es, i);
    if ss[i].tasks[t].Queued? {
      var s := ss[i];
      assert TurnOk(s, t);
      var lock := s.locks.handles[t].lock;
      if s.locks.Free(lock) {
        assert Enabled(s, Grant(t)) && Concerns(Grant(t), t);
      } else {
        var u :| u in s.locks.handles && s.locks.handles[u].lock == lock && !s.locks.handles[u].phase.Waiting?;
        assert TurnOk(s, u);
        WhoHasTheTurnMoves(s, u);
      }
    } else if ss[i].tasks[t].HasTurn() {
      WhoHasTheTurnMoves(ss[i], t);
    } else {
      WithoutTheTurnMoves(ss[i], t);
    }
  }

  /** At every point of every run anything may begin: a request, a logout, a revocation, a login, a sweep, a prune. */
  lemma AnythingMayBegin(ss: seq<State>, es: seq<Event>, i: nat, t: TaskId, id: SessionId, sel: Selector, data: SessionData, now: Time)
    requires IsRun(ss, es) && i < |ss| && t !in ss[i].tasks
    ensures Enabled(ss[i], Open(t, id)) && Enabled(ss[i], EndSession(t, id)) && Enabled(ss[i], EndSessions(t, sel))
    ensures id !in ss[i].used && data.refresh !in ss[i].tokens ==> Enabled(ss[i], Login(t, id, data))
    ensures Enabled(ss[i], Sweep(now)) && Enabled(ss[i], Prune)
  {
    RunInv(ss, es, i);
  }

  /** Clocks read what they like, Hydra answers as it likes, and a request may go away wherever it awaits something. */
  lemma AnythingMayHappen(s: State, t: TaskId, reply: Reply, now: Time, later: Time, ttl: Duration, r: Token)
    requires t in s.tasks && now <= later
    ensures s.tasks[t].Calling? && (reply.Tokens? && reply.rotated.Some? ==> reply.rotated.value !in s.tokens) ==>
      Enabled(s, Answer(t, reply, now, later, ttl))
    ensures s.tasks[t].Checking? ==> Enabled(s, Check(t, now, later))
    ensures s.tasks[t].Rechecking? ==> Enabled(s, Recheck(t, now))
    ensures (var task := s.tasks[t];
      || task.Opened? || task.Queued? || task.Rereading? || task.Calling? || task.Storing?
      || task.Dropping? || task.Disowning? || task.Ending?) ==> Enabled(s, Cancel(t))
    ensures r in s.unheard ==> Enabled(s, LateRotation(r))
  {
  }
}
