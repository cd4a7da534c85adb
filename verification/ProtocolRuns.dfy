// What holds of every run of the session protocol, whatever the interleaving.

module ProtocolRuns {
  import opened Clock
  import opened Wrappers
  import opened Session
  import opened SessionStore
  import opened RefreshLock
  import opened Protocol
  import opened ProtocolInvariant

  ghost predicate IsStep(ss: seq<State>, es: seq<Event>, i: nat)
    requires i < |es| < |ss|
  {
    Enabled(ss[i], es[i]) && ss[i + 1] == Apply(ss[i], es[i])
  }

  ghost predicate IsRun(ss: seq<State>, es: seq<Event>) {
    && |ss| == |es| + 1
    && ss[0] == INITIAL
    && forall i :: 0 <= i < |es| ==> IsStep(ss, es, i)
  }

  ghost predicate Uncancelled(es: seq<Event>, n: nat) {
    forall i :: 0 <= i < n && i < |es| ==> !es[i].Cancel?
  }

  lemma {:induction false} RunInv(ss: seq<State>, es: seq<Event>, i: nat)
    requires IsRun(ss, es) && i < |ss|
    ensures Inv(ss[i])
    ensures i < |es| ==> IsStep(ss, es, i)
  {
    if i == 0 {
      InitialInv();
    } else {
      RunInv(ss, es, i - 1);
      assert IsStep(ss, es, i - 1);
      InvKept(ss[i - 1], es[i - 1]);
    }
  }

  // ----- Token accounting

  predicate Ends(e: Event) {
    e.EndSession? || e.EndSessions? || e.Login?
  }

  /** What a token's fate records: each change happens in one kind of step, to one token. */
  lemma FateIsHistory(s: State, e: Event, r: Token)
    requires Inv(s) && Enabled(s, e)
    requires r in s.tokens
    ensures r in Apply(s, e).tokens
    ensures Apply(s, e).tokens[r].session == s.tokens[r].session
    ensures var was, now := s.tokens[r].fate, Apply(s, e).tokens[r].fate;
      now != was ==>
        match now
        case Stored => was.InFlight? && e == Commit(was.task)
        case InFlight(_) => false
        case Superseded =>
          && was.Stored? && e.Commit?
          && s.tasks[e.t].data.refresh == r
          && s.tokens[r].session in Apply(s, e).store.byId
          && Apply(s, e).store.byId[s.tokens[r].session] == s.tasks[e.t].next
        case Ended(t) => (was.Stored? && Ends(e) && e.t == t) || (was == InFlight(t) && e == Commit(t))
        case Refused => was.Stored? && e.Drop? && s.tasks[e.t].data.refresh == r
        case Swept =>
          && was.Stored? && e.Sweep?
          && s.tokens[r].session in s.store.byId
          && s.store.byId[s.tokens[r].session].EndsAt() <= e.now
        case Abandoned => e.Cancel?
  {
    assert TokenOk(s, r);
    if e.Commit? {
      assert TaskOk(s, e.t) && HeldOk(s, s.tasks[e.t].id);
    } else if e.Login? {
      LoginTokens(s, e.t, e.id, e.data, r);
    } else if RemovesOnly(e) {
      FateOfRemoved(s, e, r);
      assert e.Drop? ==> TaskOk(s, e.t);
    } else if !e.Answer? && !e.Cancel? {
      TokensUntouched(s, e);
    }
  }

  lemma TokensUntouched(s: State, e: Event)
    requires Enabled(s, e) && !(e.Commit? || e.Login? || RemovesOnly(e) || e.Answer? || e.Cancel?)
    ensures Apply(s, e).tokens == s.tokens
  {
  }

  lemma FateOfRemoved(s: State, e: Event, r: Token)
    requires Inv(s) && Enabled(s, e) && RemovesOnly(e)
    requires r in s.tokens
    ensures r in RefreshTokens(s.store, Removed(s, e)) ==>
      && s.tokens[r].fate.Stored?
      && s.tokens[r].session in Removed(s, e)
      && s.tokens[r].session in s.store.byId
      && s.store.byId[s.tokens[r].session].refresh == r
    ensures r !in RefreshTokens(s.store, Removed(s, e)) ==> Apply(s, e).tokens[r] == s.tokens[r]
  {
    if r in RefreshTokens(s.store, Removed(s, e)) {
      StoredTokens(s, Removed(s, e), r);
    }
  }

  lemma NewTokens(s: State, e: Event, r: Token)
    requires Enabled(s, e) && r !in s.tokens && r in Apply(s, e).tokens
    ensures e.Answer? || e.Login?
    ensures !Apply(s, e).tokens[r].fate.Abandoned?
  {
  }

  lemma {:induction false} NothingAbandoned(ss: seq<State>, es: seq<Event>, i: nat, r: Token)
    requires IsRun(ss, es) && i < |ss| && Uncancelled(es, i)
    requires r in ss[i].tokens
    ensures !ss[i].tokens[r].fate.Abandoned?
  {
    if i > 0 && ss[i].tokens[r].fate.Abandoned? {
      RunInv(ss, es, i - 1);
      if r in ss[i - 1].tokens {
        NothingAbandoned(ss, es, i - 1, r);
        FateIsHistory(ss[i - 1], es[i - 1], r);
      } else {
        NewTokens(ss[i - 1], es[i - 1], r);
      }
    }
  }

  /** No task is in the middle of anything that concerns a refresh token. */
  predicate Quiet(s: State) {
    forall t :: t in s.tasks ==> s.tasks[t].Done? || s.tasks[t] == Revoking({})
  }

  ghost predicate CurrentOf(s: State, r: Token, id: SessionId) {
    id in s.store.byId && s.store.byId[id].refresh == r
  }

  /**
   * Token accounting. At every point of a run without cancelled requests, each refresh token bff ever
   * got is in exactly one place; once the requests are through, it is the current token of exactly one
   * session, or was replaced, asked to be revoked, refused by Hydra or swept at its session's end.
   */
  lemma TokenAccounting(ss: seq<State>, es: seq<Event>, i: nat, r: Token)
    requires IsRun(ss, es) && i < |ss| && Uncancelled(es, i)
    requires r in ss[i].tokens
    ensures var s, record := ss[i], ss[i].tokens[r];
      match record.fate
      case Stored => forall id :: CurrentOf(s, r, id) <==> id == record.session
      case InFlight(t) =>
        && t in s.tasks && s.tasks[t].Rotated() && s.tasks[t].next.refresh == r && s.tasks[t].id == record.session
        && (forall id :: !CurrentOf(s, r, id))
      case Ended(t) =>
        && (r in s.asked || (t in s.tasks && s.tasks[t].Owes(r)))
        && (forall id :: !CurrentOf(s, r, id))
      case Abandoned => false
      case _ => forall id :: !CurrentOf(s, r, id)
    ensures Quiet(ss[i]) ==>
      var fate := ss[i].tokens[r].fate;
      fate.Stored? || fate.Superseded? || (fate.Ended? && r in ss[i].asked) || fate.Refused? || fate.Swept?
  {
    RunInv(ss, es, i);
    NothingAbandoned(ss, es, i, r);
    var s := ss[i];
    assert TokenOk(s, r);
    if s.tokens[r].fate.InFlight? {
      assert TaskOk(s, s.tokens[r].fate.task);
    }
    forall id ensures CurrentOf(s, r, id) ==> id == s.tokens[r].session {
      assert HeldOk(s, id);
    }
  }

  lemma {:induction false} TokensGrow(ss: seq<State>, es: seq<Event>, i: nat, j: nat, r: Token)
    requires IsRun(ss, es) && i <= j < |ss|
    requires r in ss[i].tokens
    ensures r in ss[j].tokens && ss[j].tokens[r].session == ss[i].tokens[r].session
  {
    if j > i {
      TokensGrow(ss, es, i, j - 1, r);
      RunInv(ss, es, j - 1);
      FateIsHistory(ss[j - 1], es[j - 1], r);
    }
  }

  /** Every token a session was ever stored with is accounted for ever after, as that session's. */
  lemma StoredTokensKnown(ss: seq<State>, es: seq<Event>, i: nat, j: nat, id: SessionId, r: Token)
    requires IsRun(ss, es) && i <= j < |ss|
    requires CurrentOf(ss[i], r, id)
    ensures r in ss[j].tokens && ss[j].tokens[r].session == id
  {
    RunInv(ss, es, i);
    assert HeldOk(ss[i], id);
    TokensGrow(ss, es, i, j, r);
  }

  /** So is every token a refresh ever returned. */
  lemma ReturnedTokensKnown(ss: seq<State>, es: seq<Event>, i: nat, j: nat, r: Token)
    requires IsRun(ss, es) && i < j < |ss|
    requires es[i].Answer? && es[i].reply.Tokens? && es[i].reply.rotated == Some(r)
    ensures es[i].t in ss[i].tasks && ss[i].tasks[es[i].t].Calling?
    ensures r in ss[j].tokens && ss[j].tokens[r].session == ss[i].tasks[es[i].t].id
  {
    assert IsStep(ss, es, i);
    TokensGrow(ss, es, i + 1, j, r);
  }

  /** The token is out of use: replaced, or given up for revocation. */
  predicate OutOfUse(s: State, r: Token)
    requires r in s.tokens
  {
    var fate := s.tokens[r].fate;
    fate.InFlight? || fate.Superseded? || fate.Ended? || fate.Abandoned?
  }

  ghost predicate AllOutOfUse(s: State, id: SessionId) {
    && id in s.used && id !in s.store.byId
    && forall r :: r in s.tokens && s.tokens[r].session == id ==> OutOfUse(s, r)
  }

  lemma EndingPutsOutOfUse(s: State, e: Event, id: SessionId)
    requires Inv(s) && Enabled(s, e) && Ends(e)
    requires id in s.store.byId && id !in Apply(s, e).store.byId
    ensures AllOutOfUse(Apply(s, e), id)
  {
    var after := Apply(s, e);
    forall r | r in after.tokens && after.tokens[r].session == id ensures OutOfUse(after, r) {
      if r in s.tokens {
        FateIsHistory(s, e, r);
        assert TokenOk(s, r);
        InvKept(s, e);
        assert TokenOk(after, r);
      }
    }
  }

  /**
   * A session ended by a logout, a back-channel logout, a revocation, an eviction or a new login, even
   * during its own refresh, leaves no refresh token behind: each was replaced or is asked to be revoked.
   */
  lemma EndedSessionLeavesNothing(ss: seq<State>, es: seq<Event>, i: nat, j: nat, id: SessionId, r: Token)
    requires IsRun(ss, es) && i < j < |ss| && Uncancelled(es, j)
    requires Ends(es[i]) && id in ss[i].store.byId && id !in ss[i + 1].store.byId
    requires Quiet(ss[j]) && r in ss[j].tokens && ss[j].tokens[r].session == id
    ensures ss[j].tokens[r].fate.Superseded? || r in ss[j].asked
  {
    RunInv(ss, es, i);
    EndingPutsOutOfUse(ss[i], es[i], id);
    OutOfUseFrom(ss, es, i + 1, j, id);
    TokenAccounting(ss, es, j, r);
    assert OutOfUse(ss[j], r);
  }

  lemma {:induction false} OutOfUseFrom(ss: seq<State>, es: seq<Event>, i: nat, j: nat, id: SessionId)
    requires IsRun(ss, es) && i <= j < |ss|
    requires AllOutOfUse(ss[i], id)
    ensures AllOutOfUse(ss[j], id)
  {
    if j > i {
      OutOfUseFrom(ss, es, i, j - 1, id);
      RunInv(ss, es, j - 1);
      var s, e, after := ss[j - 1], es[j - 1], ss[j];
      StaysGone(s, e, id);
      RunInv(ss, es, j);
      forall r | r in after.tokens && after.tokens[r].session == id ensures OutOfUse(after, r) {
        assert TokenOk(after, r);
        if r in s.tokens {
          FateIsHistory(s, e, r);
        }
      }
    }
  }

  // ----- No resurrection, and what refreshes never change

  lemma StaysGone(s: State, e: Event, id: SessionId)
    requires Inv(s) && Enabled(s, e)
    requires id in s.used && id !in s.store.byId
    ensures id in Apply(s, e).used && id !in Apply(s, e).store.byId
  {
    if e.Login? {
      SaveConserves(s.store, e.id, e.data);
    } else if !e.Commit? {
      SessionsOnlyGo(s, e, id);
      assert Apply(s, e).used == s.used;
    }
  }

  /** A session id that was removed never reappears. */
  lemma {:induction false} NoResurrection(ss: seq<State>, es: seq<Event>, i: nat, j: nat, id: SessionId)
    requires IsRun(ss, es) && i <= j < |ss|
    requires id in ss[i].used && id !in ss[i].store.byId
    ensures id in ss[j].used && id !in ss[j].store.byId
  {
    if j > i {
      NoResurrection(ss, es, i, j - 1, id);
      RunInv(ss, es, j - 1);
      StaysGone(ss[j - 1], es[j - 1], id);
    }
  }

  lemma LoginKept(s: State, e: Event, id: SessionId)
    requires Inv(s) && Enabled(s, e)
    requires id in s.store.byId && id in Apply(s, e).store.byId
    ensures Apply(s, e).store.byId[id].SameLogin(s.store.byId[id])
  {
    if e.Commit? {
      assert TaskOk(s, e.t);
    } else if e.Login? {
      SaveConserves(s.store, e.id, e.data);
    } else {
      SessionsOnlyGo(s, e, id);
    }
  }

  lemma SessionsOnlyGo(s: State, e: Event, id: SessionId)
    requires Enabled(s, e) && !e.Commit? && !e.Login?
    ensures id in Apply(s, e).store.byId ==> id in s.store.byId && Apply(s, e).store.byId[id] == s.store.byId[id]
  {
    if !RemovesOnly(e) {
      assert Apply(s, e).store == s.store;
    }
  }

  lemma {:induction false} LoginKeptSince(ss: seq<State>, es: seq<Event>, i: nat, j: nat, id: SessionId)
    requires IsRun(ss, es) && i <= j < |ss|
    requires id in ss[i].store.byId && id in ss[j].store.byId
    ensures ss[j].store.byId[id].SameLogin(ss[i].store.byId[id])
  {
    if j > i {
      RunInv(ss, es, i);
      UsedGrows(ss, es, i, j - 1);
      if id !in ss[j - 1].store.byId {
        NoResurrection(ss, es, j - 1, j, id);
      }
      LoginKeptSince(ss, es, i, j - 1, id);
      RunInv(ss, es, j - 1);
      LoginKept(ss[j - 1], es[j - 1], id);
    }
  }

  /**
   * However often a session is refreshed, its login stays: it never leaves or joins a selector, and
   * ends within the longest lifetime of its login.
   */
  lemma RefreshesKeepTheLogin(ss: seq<State>, es: seq<Event>, i: nat, j: nat, id: SessionId, sel: Selector)
    requires IsRun(ss, es) && i <= j < |ss|
    requires id in ss[i].store.byId && id in ss[j].store.byId
    ensures var was, now := ss[i].store.byId[id], ss[j].store.byId[id];
      now.user == was.user && now.sid == was.sid && now.createdAt == was.createdAt && now.idToken == was.idToken
    ensures sel.Matches(ss[j].store.byId[id]) <==> sel.Matches(ss[i].store.byId[id])
    ensures ss[j].store.byId[id].EndsAt() <= ss[i].store.byId[id].createdAt + 30 * DAY
  {
    LoginKeptSince(ss, es, i, j, id);
  }

  lemma {:induction false} UsedGrows(ss: seq<State>, es: seq<Event>, i: nat, j: nat)
    requires IsRun(ss, es) && i <= j < |ss|
    ensures ss[i].used <= ss[j].used
  {
    if j > i {
      UsedGrows(ss, es, i, j - 1);
      assert IsStep(ss, es, j - 1);
    }
  }

  /** At every point of every run the index is exact and no user has more than the allowed sessions. */
  lemma SessionCap(ss: seq<State>, es: seq<Event>, i: nat, u: UserId)
    requires IsRun(ss, es) && i < |ss|
    ensures ss[i].store.Valid()
    ensures |ss[i].store.Ids(u)| <= 20
    ensures forall id :: id in ss[i].store.Ids(u) <==> ss[i].store.Owns(u, id)
  {
    RunInv(ss, es, i);
    assert UnderCap(ss[i].store, u);
  }

  // ----- Which tokens are presented

  /** With this step `t` begins a call to Hydra's token endpoint with `r`. */
  predicate BeginsCall(s: State, after: State, t: TaskId, r: Token) {
    && t in after.tasks && after.tasks[t].Calling? && after.tasks[t].data.refresh == r
    && !(t in s.tasks && s.tasks[t].Calling?)
  }

  /** The step presents `r` to Hydra's token endpoint, whichever step it is. */
  ghost predicate Presents(s: State, e: Event, r: Token) {
    Enabled(s, e) && exists t :: BeginsCall(s, Apply(s, e), t, r)
  }

  lemma CallsBeginAtTheSecondLook(s: State, e: Event, t: TaskId, r: Token)
    requires Enabled(s, e) && BeginsCall(s, Apply(s, e), t, r)
    ensures e.Recheck? && e.t == t && t in s.tasks && s.tasks[t].Rechecking? && s.tasks[t].data.refresh == r
  {
    if t in s.tasks && !Concerns(e, t) {
      OthersStay(s, e, t);
    }
  }

  lemma {:induction false} SupersededForever(ss: seq<State>, es: seq<Event>, i: nat, j: nat, r: Token)
    requires IsRun(ss, es) && i <= j < |ss|
    requires r in ss[i].tokens && ss[i].tokens[r].fate.Superseded?
    ensures r in ss[j].tokens && ss[j].tokens[r].fate.Superseded?
  {
    if j > i {
      SupersededForever(ss, es, i, j - 1, r);
      RunInv(ss, es, j - 1);
      FateIsHistory(ss[j - 1], es[j - 1], r);
    }
  }

  lemma ReplacedIsSuperseded(s: State, e: Event, id: SessionId, r: Token)
    requires Inv(s) && Enabled(s, e)
    requires CurrentOf(s, r, id) && id in Apply(s, e).store.byId && !CurrentOf(Apply(s, e), r, id)
    ensures r in Apply(s, e).tokens && Apply(s, e).tokens[r].fate.Superseded?
  {
    assert HeldOk(s, id) && TokenOk(s, r);
    AccountedKept(s, e);
    assert TokenOk(Apply(s, e), r);
    FateIsHistory(s, e, r);
  }

  lemma PresentedIsInUse(s: State, e: Event, r: Token)
    requires Inv(s) && Presents(s, e, r)
    ensures r in s.tokens && !s.tokens[r].fate.Superseded? && !s.tokens[r].fate.InFlight?
  {
    var t :| BeginsCall(s, Apply(s, e), t, r);
    CallsBeginAtTheSecondLook(s, e, t, r);
    assert TaskOk(s, t);
  }

  /** A refresh token a completed refresh replaced in the store is never presented again, cancellations or not. */
  lemma ReplacedNeverPresented(ss: seq<State>, es: seq<Event>, i: nat, j: nat, id: SessionId, r: Token)
    requires IsRun(ss, es) && i < j < |es|
    requires CurrentOf(ss[i], r, id) && id in ss[i + 1].store.byId && !CurrentOf(ss[i + 1], r, id)
    ensures !Presents(ss[j], es[j], r)
  {
    RunInv(ss, es, i);
    ReplacedIsSuperseded(ss[i], es[i], id, r);
    SupersededForever(ss, es, i + 1, j, r);
    RunInv(ss, es, j);
    if Presents(ss[j], es[j], r) {
      PresentedIsInUse(ss[j], es[j], r);
    }
  }

  /** The step loses Hydra's replacement for `r`: it goes astray, or the request that was to store it goes away. */
  predicate Loses(s: State, e: Event, r: Token) {
    || e == LateRotation(r)
    || (e.Cancel? && e.t in s.tasks && s.tasks[e.t].Rotated() && s.tasks[e.t].data.refresh == r)
  }

  ghost predicate LostBefore(ss: seq<State>, es: seq<Event>, j: nat, r: Token) {
    exists i | 0 <= i < j && i < |es| && i < |ss| :: Loses(ss[i], es[i], r)
  }

  lemma {:induction false} LostIffHistory(ss: seq<State>, es: seq<Event>, j: nat, r: Token)
    requires IsRun(ss, es) && j < |ss|
    ensures r in ss[j].lost <==> LostBefore(ss, es, j, r)
  {
    if j > 0 {
      LostIffHistory(ss, es, j - 1, r);
      assert IsStep(ss, es, j - 1);
      assert r in ss[j].lost <==> r in ss[j - 1].lost || Loses(ss[j - 1], es[j - 1], r);
      if LostBefore(ss, es, j, r) && !Loses(ss[j - 1], es[j - 1], r) {
        assert LostBefore(ss, es, j - 1, r);
      }
    }
  }

  /** A token that is presented has been replaced by Hydra exactly when its replacement was lost. */
  lemma ReplacedByHydraPresentedOnlyIfLost(ss: seq<State>, es: seq<Event>, j: nat, r: Token)
    requires IsRun(ss, es) && j < |es|
    requires Presents(ss[j], es[j], r)
    ensures r in ss[j].rotated <==> LostBefore(ss, es, j, r)
  {
    RunInv(ss, es, j);
    LostIffHistory(ss, es, j, r);
    var t :| BeginsCall(ss[j], Apply(ss[j], es[j]), t, r);
    CallsBeginAtTheSecondLook(ss[j], es[j], t, r);
    assert PresentingOk(ss[j], t) && RotatedOk(ss[j], r);
  }

  /** A token Hydra has replaced is not presented unless its own replacement was lost, whatever else is. */
  lemma NoRepresentation(ss: seq<State>, es: seq<Event>, j: nat, r: Token)
    requires IsRun(ss, es) && j < |es|
    requires r in ss[j].rotated && !LostBefore(ss, es, j, r)
    ensures !Presents(ss[j], es[j], r)
  {
    if Presents(ss[j], es[j], r) {
      ReplacedByHydraPresentedOnlyIfLost(ss, es, j, r);
    }
  }

  /** Nothing is left from which `r` could be presented. */
  ghost predicate Retired(s: State, r: Token) {
    && r in s.tokens && !s.tokens[r].fate.Stored? && !s.tokens[r].fate.InFlight?
    && forall t :: t in s.tasks && s.tasks[t].Rechecking? ==> s.tasks[t].data.refresh != r
  }

  lemma ReplacingIsAlone(s: State, t: TaskId, r: Token)
    requires Inv(s) && Replacing(s, t, r)
    ensures forall u :: u in s.tasks && s.tasks[u].Rechecking? ==> s.tasks[u].data.refresh != r
    ensures r in s.tokens && !s.tokens[r].fate.InFlight?
  {
    assert TaskOk(s, t);
    forall u | u in s.tasks && s.tasks[u].Rechecking? ensures s.tasks[u].data.refresh != r {
      assert TaskOk(s, u);
      if s.tasks[u].data.refresh == r {
        OneTurn(s, t, u);
      }
    }
  }

  lemma StaysRetired(s: State, e: Event, r: Token)
    requires Inv(s) && Enabled(s, e) && Retired(s, r)
    ensures Retired(Apply(s, e), r)
  {
    var after := Apply(s, e);
    FateIsHistory(s, e, r);
    forall t | t in after.tasks && after.tasks[t].Rechecking? ensures after.tasks[t].data.refresh != r {
      if t in s.tasks && !Concerns(e, t) {
        OthersStay(s, e, t);
      } else if e.Reread? {
        StoredIsNotRetired(s, s.tasks[t].id, r);
      }
    }
  }

  lemma StoredIsNotRetired(s: State, id: SessionId, r: Token)
    requires Inv(s) && r in s.tokens && !s.tokens[r].fate.Stored?
    ensures id in s.store.byId ==> s.store.byId[id].refresh != r
  {
    assert HeldOk(s, id) && TokenOk(s, r);
  }

  lemma ReplacedRetires(s: State, e: Event, t: TaskId, r: Token)
    requires Inv(s) && Enabled(s, e) && Replacing(s, t, r) && e != Cancel(t)
    ensures Replacing(Apply(s, e), t, r) || Retired(Apply(s, e), r)
  {
    ReplacingIsAlone(s, t, r);
    if e == Commit(t) {
      ReplacedByCommit(s, t, r);
      FateIsHistory(s, e, r);
    } else {
      assert TaskOk(s, t);
      if !Concerns(e, t) {
        OthersStay(s, e, t);
      }
    }
  }

  ghost predicate AnswerHeld(ss: seq<State>, es: seq<Event>, i: nat, j: nat, t: TaskId) {
    forall k | i < k < j && k < |es| && k < |ss| :: es[k] == Cancel(t) && t in ss[k].tasks ==> !ss[k].tasks[t].Storing?
  }

  lemma {:induction false} ReplacedOrRetired(ss: seq<State>, es: seq<Event>, i: nat, j: nat, t: TaskId, r: Token)
    requires IsRun(ss, es) && i < j < |ss|
    requires Replacing(ss[i + 1], t, r) && AnswerHeld(ss, es, i, j, t)
    ensures Replacing(ss[j], t, r) || Retired(ss[j], r)
  {
    if j > i + 1 {
      ReplacedOrRetired(ss, es, i, j - 1, t, r);
      RunInv(ss, es, j - 1);
      if Retired(ss[j - 1], r) {
        StaysRetired(ss[j - 1], es[j - 1], r);
      } else {
        ReplacedRetires(ss[j - 1], es[j - 1], t, r);
      }
    }
  }

  /**
   * Once a request has had a replacement for `r` from Hydra, `r` is never presented again as long as that
   * request is not cancelled before it stores the replacement: whatever else is lost, ended or cancelled.
   */
  lemma AnsweredNeverPresented(ss: seq<State>, es: seq<Event>, i: nat, j: nat, r: Token)
    requires IsRun(ss, es) && i < j < |es|
    requires es[i].Answer? && es[i].reply.Tokens? && es[i].reply.rotated.Some?
    requires es[i].t in ss[i].tasks && ss[i].tasks[es[i].t].Calling? && ss[i].tasks[es[i].t].data.refresh == r
    requires AnswerHeld(ss, es, i, j, es[i].t)
    ensures !Presents(ss[j], es[j], r)
  {
    RunInv(ss, es, i);
    var t := es[i].t;
    assert TaskOk(ss[i], t);
    assert Replacing(ss[i + 1], t, r);
    ReplacedOrRetired(ss, es, i, j, t, r);
    RunInv(ss, es, j);
    if Replacing(ss[j], t, r) {
      ReplacingIsAlone(ss[j], t, r);
    }
    if Presents(ss[j], es[j], r) {
      var u :| BeginsCall(ss[j], Apply(ss[j], es[j]), u, r);
      CallsBeginAtTheSecondLook(ss[j], es[j], u, r);
    }
  }

  // ----- The lock table

  /** The tasks that wait for the turn of session `id` or have it. */
  function TurnTakers(s: State, id: SessionId): set<TaskId> {
    set t | t in s.tasks && (s.tasks[t].Queued? || s.tasks[t].HasTurn()) && s.tasks[t].id == id
  }

  /**
   * At every point of every run a session's lock counts one reference for the map and one for each
   * task that waits for its turn or has it; any such task uses the lock in the map, and at most one has the turn.
   */
  lemma LockTable(ss: seq<State>, es: seq<Event>, i: nat, id: SessionId)
    requires IsRun(ss, es) && i < |ss|
    ensures var locks := ss[i].locks;
      id in locks.locks ==>
        locks.locks[id] in locks.strong && locks.strong[locks.locks[id]] == 1 + |TurnTakers(ss[i], id)|
    ensures TurnTakers(ss[i], id) != {} ==> id in ss[i].locks.locks
    ensures forall t | t in TurnTakers(ss[i], id) ::
      t in ss[i].locks.handles && id in ss[i].locks.locks && ss[i].locks.handles[t].lock == ss[i].locks.locks[id]
    ensures forall t, u | t in TurnTakers(ss[i], id) && u in TurnTakers(ss[i], id) ::
      ss[i].tasks[t].HasTurn() && ss[i].tasks[u].HasTurn() ==> t == u
  {
    RunInv(ss, es, i);
    var s := ss[i];
    forall t | t in TurnTakers(s, id) ensures t in s.locks.handles && s.locks.handles[t].session == id {
      assert TurnOk(s, t);
    }
    if id in s.locks.locks {
      TurnTakersAreUsers(s, id);
      assert s.locks.CountExact(s.locks.locks[id]);
    }
    forall t, u | t in TurnTakers(s, id) && u in TurnTakers(s, id) && s.tasks[t].HasTurn() && s.tasks[u].HasTurn()
      ensures t == u
    {
      OneTurn(s, t, u);
    }
  }

  lemma TurnTakersAreUsers(s: State, id: SessionId)
    requires TurnsOk(s) && id in s.locks.locks
    ensures TurnTakers(s, id) == s.locks.Users(s.locks.locks[id])
  {
    forall t ensures t in TurnTakers(s, id) <==> t in s.locks.Users(s.locks.locks[id]) {
      assert TurnOk(s, t);
    }
  }

  ghost predicate NoWaiterCancelled(ss: seq<State>, es: seq<Event>) {
    && |es| < |ss|
    && forall i :: 0 <= i < |es| ==>
         (es[i].Cancel? && es[i].t in ss[i].tasks ==> !ss[i].tasks[es[i].t].Queued?)
  }

  lemma NoOrphansKept(s: State, e: Event)
    requires TurnsOk(s) && Enabled(s, e)
    requires e.Cancel? ==> !s.tasks[e.t].Queued?
    requires forall id :: !s.locks.Orphan(id)
    ensures forall id :: !Apply(s, e).locks.Orphan(id)
  {
    match e
    case Ask(t, unused) =>
      assert TurnOk(s, t);
      AskingLeavesNoOrphan(s.locks, t, s.tasks[t].id, unused);
    case Grant(t) => GrantingLeavesNoOrphan(s.locks, t);
    case Leave(t) => WhoLeavesOrphans(s.locks, t);
    case Cancel(t) =>
      if t in s.locks.handles {
        WhoLeavesOrphans(s.locks, t);
      }
    case Prune => PrunedValid(s.locks);
    case _ =>
  }

  /** Where no waiter goes away, no unused lock ever stays in the map. */
  lemma {:induction false} NoOrphans(ss: seq<State>, es: seq<Event>, i: nat)
    requires IsRun(ss, es) && i < |ss| && NoWaiterCancelled(ss, es)
    ensures forall id :: !ss[i].locks.Orphan(id)
  {
    if i > 0 {
      NoOrphans(ss, es, i - 1);
      RunInv(ss, es, i - 1);
      NoOrphansKept(ss[i - 1], es[i - 1]);
    }
  }

  lemma GrantingLeavesNoOrphan(tb: Table, t: TaskId)
    requires t in tb.handles
    requires forall id :: !tb.Orphan(id)
    ensures forall id :: !Granted(tb, t).Orphan(id)
  {
    forall l ensures Granted(tb, t).Users(l) == tb.Users(l) {
    }
    forall id | id in tb.locks ensures !Granted(tb, t).Orphan(id) {
      assert !tb.Orphan(id);
    }
  }

  // ----- What a request gets

  /** Session `id` was stored with access token `a` at some point after `o` and before `j`, while `t` ran. */
  ghost predicate StoredMeanwhile(ss: seq<State>, o: nat, j: nat, t: TaskId, id: SessionId, a: Token) {
    exists i | o < i <= j && i < |ss| ::
      && t in ss[i].tasks && !ss[i].tasks[t].Done?
      && id in ss[i].store.byId && ss[i].store.byId[id].access == a
  }

  /** A call for session `id` opened at `o`, as it stands at `j`. */
  ghost predicate CallOk(ss: seq<State>, o: nat, j: nat, t: TaskId, id: SessionId) {
    && j < |ss| && t in ss[j].tasks
    && !ss[j].tasks[t].Ending? && !ss[j].tasks[t].Revoking?
    && (!ss[j].tasks[t].Done? ==> ss[j].tasks[t].id == id)
    && (ss[j].tasks[t].Checking? || ss[j].tasks[t].Rechecking? ==>
          StoredMeanwhile(ss, o, j, t, id, ss[j].tasks[t].data.access))
    && ((ss[j].tasks[t].Leaving? || ss[j].tasks[t].Done?) && ss[j].tasks[t].outcome.Bearer? ==>
          StoredMeanwhile(ss, o, j, t, id, ss[j].tasks[t].outcome.access))
  }

  lemma StillMeanwhile(ss: seq<State>, o: nat, j: nat, t: TaskId, id: SessionId, a: Token)
    requires StoredMeanwhile(ss, o, j, t, id, a)
    ensures StoredMeanwhile(ss, o, j + 1, t, id, a)
  {
  }

  lemma CallKept(ss: seq<State>, es: seq<Event>, o: nat, j: nat, t: TaskId, id: SessionId)
    requires IsRun(ss, es) && o < j < |es|
    requires CallOk(ss, o, j, t, id)
    ensures CallOk(ss, o, j + 1, t, id)
  {
    assert IsStep(ss, es, j);
    var s, e, after := ss[j], es[j], ss[j + 1];
    var task := s.tasks[t];
    if task.Checking? || task.Rechecking? {
      StillMeanwhile(ss, o, j, t, id, task.data.access);
    }
    if (task.Leaving? || task.Done?) && task.outcome.Bearer? {
      StillMeanwhile(ss, o, j, t, id, task.outcome.access);
    }
    if e == Read(t) || e == Reread(t) {
      if id in s.store.byId {
        assert StoredMeanwhile(ss, o, j + 1, t, id, s.store.byId[id].access);
      }
    } else if e == Commit(t) {
      if id in s.store.byId {
        assert after.store.byId[id].access == task.next.access;
        assert StoredMeanwhile(ss, o, j + 1, t, id, task.next.access);
      }
    } else {
      OwnStep(s, e, t);
    }
  }

  /** The task finds its session's access token `a` with more than five seconds left. */
  predicate LooksFreshAt(task: Task, e: Event, t: TaskId, a: Token) {
    || (e.Check? && e.t == t && task.Checking? && task.data.access == a && task.data.expiresAt > e.later + 5 * SECOND)
    || (e.Recheck? && e.t == t && task.Rechecking? && task.data.access == a && task.data.expiresAt > e.now + 5 * SECOND)
  }

  predicate Served(task: Task) {
    (task.Leaving? || task.Done?) && task.outcome.Bearer?
  }

  /** How a request may go on with one step of anyone's. */
  lemma OwnStep(s: State, e: Event, t: TaskId)
    requires Enabled(s, e) && t in s.tasks && !s.tasks[t].Ending? && !s.tasks[t].Revoking?
    ensures t in Apply(s, e).tasks
    ensures var was, now := s.tasks[t], Apply(s, e).tasks[t];
      && !now.Ending? && !now.Revoking?
      && (!now.Done? ==> !was.Done? && now.id == was.id)
      && (now.Checking? && now != was ==> e == Read(t) && was.id in s.store.byId && now.data == s.store.byId[was.id])
      && (now.Rechecking? && now != was ==> e == Reread(t) && was.id in s.store.byId && now.data == s.store.byId[was.id])
      && (now.Storing? && now != was ==> e.Answer? && e.t == t && e.reply.Tokens? && e.reply.access == now.next.access)
      && (Served(now) ==>
            || (Served(was) && was.outcome == now.outcome)
            || LooksFreshAt(was, e, t, now.outcome.access)
            || (e == Commit(t) && was.Storing? && was.id in s.store.byId && was.next.access == now.outcome.access))
    ensures var was, now := s.tasks[t], Apply(s, e).tasks[t];
      && (HasLooked(was) ==> HasLooked(now))
      && (NotServed(was) ==>
            || NotServed(now)
            || (e.Check? && e.t == t && was.Checking? && e.now < was.data.EndsAt()))
      && (OffTheQueue(was) && !(e.Ask? && e.t == t) ==>
            && OffTheQueue(now)
            && (Served(now) && now != was ==> e.Check? && e.t == t && was.Checking? && e.now < was.data.EndsAt()))
  {
    if !Concerns(e, t) {
      OthersStay(s, e, t);
    }
  }

  /** The task has not asked for the turn. */
  predicate OffTheQueue(task: Task) {
    task.Opened? || task.Checking? || task.Asking? || task.Done?
  }

  lemma {:induction false} CallFollowed(ss: seq<State>, es: seq<Event>, o: nat, j: nat, t: TaskId, id: SessionId)
    requires IsRun(ss, es) && o < j < |ss|
    requires es[o] == Open(t, id)
    ensures CallOk(ss, o, j, t, id)
  {
    assert IsStep(ss, es, o);
    if j > o + 1 {
      CallFollowed(ss, es, o, j - 1, t, id);
      CallKept(ss, es, o, j - 1, t, id);
    }
  }

  /** Every bearer token a request resolves to was its session's stored one at some instant during the call. */
  lemma BearerWasStored(ss: seq<State>, es: seq<Event>, o: nat, j: nat, t: TaskId, id: SessionId, a: Token)
    requires IsRun(ss, es) && o < j < |ss|
    requires es[o] == Open(t, id)
    requires t in ss[j].tasks && ss[j].tasks[t] == Done(Bearer(a))
    ensures exists i | o < i < j ::
      && t in ss[i].tasks && !ss[i].tasks[t].Done?
      && id in ss[i].store.byId && ss[i].store.byId[id].access == a
  {
    CallFollowed(ss, es, o, j, t, id);
  }

  // ----- When a request is served

  /** `t` found its session fresh, and not yet ended, at a check between `o` and `j`. */
  ghost predicate PassedCheck(ss: seq<State>, es: seq<Event>, o: nat, j: nat, t: TaskId, a: Token) {
    exists i | o < i < j && i < |es| && i < |ss| ::
      && es[i].Check? && es[i].t == t
      && t in ss[i].tasks && ss[i].tasks[t].Checking? && ss[i].tasks[t].data.access == a
      && es[i].now < ss[i].tasks[t].data.EndsAt() && IsFresh(ss[i].tasks[t].data, es[i].later)
  }

  /** A call that never asked for the turn, as it stands at `j`. */
  ghost predicate NeverAsked(ss: seq<State>, es: seq<Event>, o: nat, j: nat, t: TaskId) {
    && j < |ss| && t in ss[j].tasks
    && var task := ss[j].tasks[t];
       && (task.Opened? || task.Checking? || task.Asking? || task.Done?)
       && (task.Done? && task.outcome.Bearer? ==> PassedCheck(ss, es, o, j, t, task.outcome.access))
  }

  /** The step is one of task `t`. */
  predicate Concerns(e: Event, t: TaskId) {
    !e.LateRotation? && !e.Sweep? && !e.Prune? && e.t == t
  }

  lemma OthersStay(s: State, e: Event, t: TaskId)
    requires Enabled(s, e) && t in s.tasks && !Concerns(e, t)
    ensures t in Apply(s, e).tasks && Apply(s, e).tasks[t] == s.tasks[t]
  {
    if e.Commit? || e.Answer? || e.Cancel? {
    } else if e.Login? || RemovesOnly(e) {
    } else {
    }
  }

  lemma {:induction false} NeverAskedFrom(ss: seq<State>, es: seq<Event>, o: nat, j: nat, t: TaskId, id: SessionId)
    requires IsRun(ss, es) && o < j < |ss| && es[o] == Open(t, id)
    requires forall i :: o < i < j ==> !(es[i].Ask? && es[i].t == t)
    ensures NeverAsked(ss, es, o, j, t)
  {
    assert IsStep(ss, es, o);
    if j > o + 1 {
      NeverAskedFrom(ss, es, o, j - 1, t, id);
      assert IsStep(ss, es, j - 1);
      var was := ss[j - 1].tasks[t];
      OwnStep(ss[j - 1], es[j - 1], t);
      if Served(was) {
        assert PassedCheck(ss, es, o, j - 1, t, was.outcome.access);
        assert PassedCheck(ss, es, o, j, t, was.outcome.access);
      } else if Served(ss[j].tasks[t]) {
        assert PassedCheck(ss, es, o, j, t, was.data.access);
      }
    }
  }

  /** A request that did not have to wait for the turn is served only before its session's end. */
  lemma ServedBeforeTheEndUnlessItWaited(ss: seq<State>, es: seq<Event>, o: nat, j: nat, t: TaskId, id: SessionId, a: Token)
    requires IsRun(ss, es) && o < j < |ss| && es[o] == Open(t, id)
    requires forall i :: o < i < j ==> !(es[i].Ask? && es[i].t == t)
    requires t in ss[j].tasks && ss[j].tasks[t] == Done(Bearer(a))
    ensures exists i | o < i < j ::
      && es[i].Check? && es[i].t == t
      && t in ss[i].tasks && ss[i].tasks[t].Checking? && ss[i].tasks[t].data.access == a
      && es[i].now < ss[i].tasks[t].data.refreshExpiresAt
      && es[i].now < ss[i].tasks[t].data.createdAt + 30 * DAY
      && ss[i].tasks[t].data.expiresAt > es[i].later + 5 * SECOND
  {
    NeverAskedFrom(ss, es, o, j, t, id);
    assert PassedCheck(ss, es, o, j, t, a);
  }

  /** `t` found its session not yet ended at its first look, between `o` and `j`. */
  ghost predicate CameInTime(ss: seq<State>, es: seq<Event>, o: nat, j: nat, t: TaskId) {
    exists i | o < i < j && i < |es| && i < |ss| ::
      && es[i].Check? && es[i].t == t
      && t in ss[i].tasks && ss[i].tasks[t].Checking? && es[i].now < ss[i].tasks[t].data.EndsAt()
  }

  /** The task has not looked at the clock yet, or came away with nothing. */
  predicate NotServed(task: Task) {
    task.Opened? || task.Checking? || (task.Done? && !task.outcome.Bearer?)
  }

  lemma {:induction false} CameInTimeOrNotServed(ss: seq<State>, es: seq<Event>, o: nat, j: nat, t: TaskId, id: SessionId)
    requires IsRun(ss, es) && o < j < |ss| && es[o] == Open(t, id)
    ensures t in ss[j].tasks
    ensures CameInTime(ss, es, o, j, t) || NotServed(ss[j].tasks[t])
  {
    assert IsStep(ss, es, o);
    if j > o + 1 {
      CameInTimeOrNotServed(ss, es, o, j - 1, t, id);
      CallFollowed(ss, es, o, j, t, id);
      assert IsStep(ss, es, j - 1);
      if !CameInTime(ss, es, o, j - 1, t) {
        OwnStep(ss[j - 1], es[j - 1], t);
      }
    }
  }

  /** Every request that is served came before its session's end, however long it then waited. */
  lemma ServedOnlyIfItCameBeforeTheEnd(ss: seq<State>, es: seq<Event>, o: nat, j: nat, t: TaskId, id: SessionId, a: Token)
    requires IsRun(ss, es) && o < j < |ss| && es[o] == Open(t, id)
    requires t in ss[j].tasks && ss[j].tasks[t] == Done(Bearer(a))
    ensures exists i | o < i < j ::
      && es[i].Check? && es[i].t == t
      && t in ss[i].tasks && ss[i].tasks[t].Checking? && es[i].now < ss[i].tasks[t].data.EndsAt()
  {
    CameInTimeOrNotServed(ss, es, o, j, t, id);
    assert CameInTime(ss, es, o, j, t);
  }

  /** A task that is through takes no step. */
  lemma NothingAfterDone(s: State, e: Event, t: TaskId)
    requires Enabled(s, e) && t in s.tasks && s.tasks[t].Done?
    ensures !Concerns(e, t)
  {
  }

  lemma {:induction false} DoneForever(ss: seq<State>, es: seq<Event>, i: nat, j: nat, t: TaskId)
    requires IsRun(ss, es) && i <= j < |ss|
    requires t in ss[i].tasks && ss[i].tasks[t].Done?
    ensures t in ss[j].tasks && ss[j].tasks[t] == ss[i].tasks[t]
  {
    if j > i {
      DoneForever(ss, es, i, j - 1, t);
      assert IsStep(ss, es, j - 1);
      NothingAfterDone(ss[j - 1], es[j - 1], t);
      OthersStay(ss[j - 1], es[j - 1], t);
    }
  }

  /** A request whose first look comes at or after its session's end gets nothing, whatever happens next. */
  lemma TooLateIsNeverServed(ss: seq<State>, es: seq<Event>, c: nat, j: nat, t: TaskId)
    requires IsRun(ss, es) && c < j < |ss|
    requires es[c].Check? && es[c].t == t && t in ss[c].tasks && ss[c].tasks[t].Checking?
    requires es[c].now >= ss[c].tasks[t].data.EndsAt()
    ensures t in ss[j].tasks && ss[j].tasks[t] == Done(Unauthenticated)
  {
    assert IsStep(ss, es, c);
    DoneForever(ss, es, c + 1, j, t);
  }

  predicate HasLooked(task: Task) { !task.Opened? && !task.Checking? && !task.Ending? && !task.Revoking? }

  lemma {:induction false} LookedSince(ss: seq<State>, es: seq<Event>, c: nat, k: nat, t: TaskId)
    requires IsRun(ss, es) && c < k < |ss|
    requires es[c].Check? && es[c].t == t
    ensures t in ss[k].tasks && HasLooked(ss[k].tasks[t])
    ensures (forall p :: c < p < k ==> !(es[p].Ask? && es[p].t == t)) ==> ss[k].tasks[t].Asking? || ss[k].tasks[t].Done?
  {
    if k == c + 1 {
      assert IsStep(ss, es, c);
    } else {
      LookedSince(ss, es, c, k - 1, t);
      assert IsStep(ss, es, k - 1);
      OwnStep(ss[k - 1], es[k - 1], t);
      if ss[k - 1].tasks[t].Asking? || ss[k - 1].tasks[t].Done? {
        if !(es[k - 1].Ask? && es[k - 1].t == t) {
          OwnStep(ss[k - 1], es[k - 1], t);
        }
      }
    }
  }

  /** A served request that read the clock at or past its session's end did so after it had asked for the turn. */
  lemma ServedPastTheEndWaited(ss: seq<State>, es: seq<Event>, c: nat, k: nat, j: nat, t: TaskId)
    requires IsRun(ss, es) && c <= k < j < |ss|
    requires es[c].Check? && es[c].t == t && t in ss[c].tasks && ss[c].tasks[t].Checking?
    requires (es[k].Check? || es[k].Recheck?) && es[k].t == t && es[k].now >= ss[c].tasks[t].data.EndsAt()
    requires t in ss[j].tasks && ss[j].tasks[t].Done? && ss[j].tasks[t].outcome.Bearer?
    ensures es[k].Recheck?
    ensures exists p | c < p < k :: es[p].Ask? && es[p].t == t
  {
    if es[c].now >= ss[c].tasks[t].data.EndsAt() {
      TooLateIsNeverServed(ss, es, c, j, t);
    }
    assert k > c;
    LookedSince(ss, es, c, k, t);
    assert IsStep(ss, es, k);
  }
}
