// The in-memory session store: sessions by id, and every user's session ids in insertion order.

/** The store as a value, what each operation makes of it, and what that guarantees. */
module SessionStore {
  import opened Clock
  import opened Wrappers
  import opened Session
  import opened Sequences

  /** Each user's share of the store. */
  const MAX_SESSIONS_PER_USER: nat := 20

  ghost predicate NoDuplicates<T>(xs: seq<T>) {
    forall i, j :: 0 <= i < j < |xs| ==> xs[i] != xs[j]
  }

  function Elements<T>(xs: seq<T>): (all: set<T>)
    ensures |all| <= |xs|
  {
    if xs == [] then {} else {xs[0]} + Elements(xs[1..])
  }

  lemma {:induction false} ElementsAreMembers<T>(xs: seq<T>)
    ensures forall x :: x in Elements(xs) <==> x in xs
    ensures NoDuplicates(xs) ==> |Elements(xs)| == |xs|
  {
    if xs != [] {
      ElementsAreMembers(xs[1..]);
      assert xs == [xs[0]] + xs[1..];
      if NoDuplicates(xs) {
        assert xs[0] !in xs[1..];
      }
    }
  }

  lemma {:induction false} ElementsPush(xs: seq<SessionId>, x: SessionId)
    ensures Elements(xs + [x]) == Elements(xs) + {x}
    ensures x in Elements(xs) <==> x in xs
  {
    ElementsConcat(xs, [x]);
    ElementsAreMembers(xs);
  }

  lemma {:induction false} ElementsConcat(xs: seq<SessionId>, ys: seq<SessionId>)
    ensures Elements(xs + ys) == Elements(xs) + Elements(ys)
  {
    if xs == [] {
      assert xs + ys == ys;
    } else {
      assert (xs + ys)[0] == xs[0] && (xs + ys)[1..] == xs[1..] + ys;
      ElementsConcat(xs[1..], ys);
    }
  }

  lemma SameMembersSameLength(xs: seq<SessionId>, ys: seq<SessionId>)
    requires NoDuplicates(xs) && NoDuplicates(ys)
    requires forall x :: x in xs <==> x in ys
    ensures |xs| == |ys|
  {
    ElementsAreMembers(xs);
    ElementsAreMembers(ys);
    assert Elements(xs) == Elements(ys);
  }

  /** `ids` without those in `gone`, order kept. */
  function Kept(ids: seq<SessionId>, gone: set<SessionId>): (kept: seq<SessionId>)
    ensures |kept| <= |ids|
  {
    if ids == [] then []
    else if ids[0] in gone then Kept(ids[1..], gone)
    else [ids[0]] + Kept(ids[1..], gone)
  }

  lemma {:induction false} KeptMembers(ids: seq<SessionId>, gone: set<SessionId>)
    ensures forall id :: id in Kept(ids, gone) <==> id in ids && id !in gone
    ensures NoDuplicates(ids) ==> NoDuplicates(Kept(ids, gone))
  {
    if ids != [] {
      KeptMembers(ids[1..], gone);
      assert ids == [ids[0]] + ids[1..];
    }
  }

  lemma {:induction false} KeptConcat(a: seq<SessionId>, b: seq<SessionId>, gone: set<SessionId>)
    ensures Kept(a + b, gone) == Kept(a, gone) + Kept(b, gone)
  {
    if a == [] {
      assert a + b == b;
    } else {
      var x, rest := a[0], a[1..];
      KeptConcat(rest, b, gone);
      assert (a + b)[0] == x && (a + b)[1..] == rest + b;
      ConcatAssociates([x], Kept(rest, gone), Kept(b, gone));
    }
  }

  lemma {:induction false} KeptTwice(ids: seq<SessionId>, first: set<SessionId>, second: set<SessionId>)
    ensures Kept(Kept(ids, first), second) == Kept(ids, first + second)
  {
    if ids != [] {
      var rest := Kept(ids[1..], first);
      KeptTwice(ids[1..], first, second);
      if ids[0] !in first {
        assert ([ids[0]] + rest)[1..] == rest;
      }
    }
  }

  lemma {:induction false} KeptAll(ids: seq<SessionId>, gone: set<SessionId>)
    requires forall id :: id in ids ==> id !in gone
    ensures Kept(ids, gone) == ids
  {
    if ids != [] {
      KeptAll(ids[1..], gone);
    }
  }

  type Index = map<UserId, seq<SessionId>>

  datatype Store = Store(byId: map<SessionId, SessionData>, byUser: Index)
  {
    function Ids(u: UserId): seq<SessionId> {
      if u in byUser then byUser[u] else []
    }

    predicate Owns(u: UserId, id: SessionId) {
      id in byId && byId[id].user == u
    }

    /** The index lists, for each user with a session, exactly that user's ids, each once. */
    ghost predicate Valid() {
      && (forall u :: u in byUser ==> byUser[u] != [])
      && (forall u :: NoDuplicates(Ids(u)))
      && (forall u, id :: id in Ids(u) <==> Owns(u, id))
    }

    /** The ids a scan of every session would find `sel` to match. */
    function Matching(sel: Selector): set<SessionId> {
      set id | id in byId && sel.Matches(byId[id])
    }

    function Expired(now: Time): set<SessionId> {
      set id | id in byId && byId[id].EndsAt() <= now
    }
  }

  // ----- What the operations make of a store

  function Unindexed(byUser: Index, gone: set<SessionId>): Index {
    map u | u in byUser && Kept(byUser[u], gone) != [] :: Kept(byUser[u], gone)
  }

  /** The store without the sessions `gone`. */
  function Without(st: Store, gone: set<SessionId>): Store {
    Store(st.byId - gone, Unindexed(st.byUser, gone))
  }

  function Inserted(st: Store, id: SessionId, data: SessionData): Store {
    var others := Without(st, {id});
    Store(others.byId[id := data], others.byUser[data.user := others.Ids(data.user) + [id]])
  }

  function Updated(st: Store, id: SessionId, data: SessionData): Store {
    if id in st.byId then Inserted(st, id, data) else st
  }

  /** `ids` with `id` put after every one no newer: what makes the sort below stable. */
  function InsertByAge(byId: map<SessionId, SessionData>, ids: seq<SessionId>, id: SessionId): (r: seq<SessionId>)
    requires id in byId && forall x :: x in ids ==> x in byId
    ensures forall x :: x in r <==> x == id || x in ids
    ensures |r| == |ids| + 1
  {
    if ids == [] || byId[ids[|ids| - 1]].createdAt <= byId[id].createdAt then ids + [id]
    else
      assert ids == ids[..|ids| - 1] + [ids[|ids| - 1]];
      InsertByAge(byId, ids[..|ids| - 1], id) + [ids[|ids| - 1]]
  }

  function SortedByAge(byId: map<SessionId, SessionData>, ids: seq<SessionId>): (r: seq<SessionId>)
    requires forall x :: x in ids ==> x in byId
    ensures forall x :: x in r <==> x in ids
    ensures |r| == |ids|
  {
    if ids == [] then []
    else
      assert ids == ids[..|ids| - 1] + [ids[|ids| - 1]];
      InsertByAge(byId, SortedByAge(byId, ids[..|ids| - 1]), ids[|ids| - 1])
  }

  /** The ids of `u` beyond the cap, oldest first. */
  function Oldest(st: Store, u: UserId): (ids: seq<SessionId>)
    requires forall id :: id in st.Ids(u) ==> id in st.byId
    ensures forall id :: id in ids ==> id in st.Ids(u)
  {
    var own := st.Ids(u);
    var excess := if |own| > MAX_SESSIONS_PER_USER then |own| - MAX_SESSIONS_PER_USER else 0;
    var sorted := SortedByAge(st.byId, own);
    assert forall id :: id in sorted[..excess] ==> id in sorted;
    sorted[..excess]
  }

  /** The ids a login of `data` under `id` pushes out, oldest first. */
  function Evicted(st: Store, id: SessionId, data: SessionData): (ids: seq<SessionId>)
    requires st.Valid()
  {
    InsertedValid(st, id, data);
    Oldest(Inserted(st, id, data), data.user)
  }

  function Saved(st: Store, id: SessionId, data: SessionData): Store
    requires st.Valid()
  {
    Without(Inserted(st, id, data), Elements(Evicted(st, id, data)))
  }

  // ----- The index stays exact

  /** What a sweep drops and what a selector matches, by the sessions' own fields. */
  lemma ExpiredAre(st: Store, now: Time, id: SessionId)
    ensures id in st.Expired(now) <==>
      id in st.byId && (st.byId[id].refreshExpiresAt <= now || st.byId[id].createdAt + 30 * DAY <= now)
  {
  }

  lemma MatchingAre(st: Store, u: UserId, s: LoginId, id: SessionId)
    ensures id in st.Matching(OfUser(u)) <==> id in st.byId && st.byId[id].user == u
    ensures id in st.Matching(OfUserLogin(u, s)) <==>
      id in st.byId && st.byId[id].user == u && (st.byId[id].sid.None? || st.byId[id].sid == Some(s))
    ensures id in st.Matching(OfLogin(s)) <==> id in st.byId && st.byId[id].sid == Some(s)
  {
  }

  lemma WithoutIds(st: Store, gone: set<SessionId>, u: UserId)
    ensures Without(st, gone).Ids(u) == Kept(st.Ids(u), gone)
  {
  }

  lemma WithoutValid(st: Store, gone: set<SessionId>)
    requires st.Valid()
    ensures Without(st, gone).Valid()
    ensures forall u :: Without(st, gone).Ids(u) == Kept(st.Ids(u), gone)
    ensures forall id :: id in Without(st, gone).byId <==> id in st.byId && id !in gone
    ensures forall id :: id in Without(st, gone).byId ==> Without(st, gone).byId[id] == st.byId[id]
  {
    var left := Without(st, gone);
    forall u
      ensures left.Ids(u) == Kept(st.Ids(u), gone)
      ensures NoDuplicates(left.Ids(u))
      ensures forall id :: id in left.Ids(u) <==> left.Owns(u, id)
    {
      WithoutIds(st, gone, u);
      KeptMembers(st.Ids(u), gone);
      assert NoDuplicates(st.Ids(u));
      assert forall id :: id in st.Ids(u) <==> st.Owns(u, id);
    }
  }

  lemma InsertedValid(st: Store, id: SessionId, data: SessionData)
    requires st.Valid()
    ensures Inserted(st, id, data).Valid()
  {
    WithoutValid(st, {id});
    var others, after := Without(st, {id}), Inserted(st, id, data);
    forall u
      ensures NoDuplicates(after.Ids(u))
      ensures forall x :: x in after.Ids(u) <==> after.Owns(u, x)
    {
      assert NoDuplicates(others.Ids(u));
      assert forall x :: x in others.Ids(u) <==> others.Owns(u, x);
      assert after.Ids(u) == others.Ids(u) + if u == data.user then [id] else [];
      assert !others.Owns(u, id);
    }
  }

  /** The id moves to the end of its user's list, everyone else's stays but for it, and no other session changes. */
  lemma InsertedIs(st: Store, id: SessionId, data: SessionData, u: UserId)
    ensures Inserted(st, id, data).byId == st.byId[id := data]
    ensures Inserted(st, id, data).Ids(u) == Kept(st.Ids(u), {id}) + if u == data.user then [id] else []
  {
    WithoutIds(st, {id}, u);
    WithoutIds(st, {id}, data.user);
  }

  /** Replacing a session of the same user leaves every user's number of sessions as it was. */
  lemma UpdatedValid(st: Store, id: SessionId, data: SessionData)
    requires st.Valid()
    requires id in st.byId ==> st.byId[id].user == data.user
    ensures Updated(st, id, data).Valid()
    ensures Updated(st, id, data).byId == if id in st.byId then st.byId[id := data] else st.byId
    ensures forall u :: |Updated(st, id, data).Ids(u)| == |st.Ids(u)|
  {
    if id in st.byId {
      InsertedValid(st, id, data);
      WithoutValid(st, {id});
      forall u ensures |Updated(st, id, data).Ids(u)| == |st.Ids(u)| {
        if u == data.user {
          SameMembersSameLength(st.Ids(u), Inserted(st, id, data).Ids(u));
        } else {
          KeptAll(st.Ids(u), {id});
        }
      }
    }
  }

  // ----- Which sessions a login pushes out

  /** `a` is older than `b`, or as old and listed before it. */
  ghost predicate Before(byId: map<SessionId, SessionData>, ids: seq<SessionId>, a: SessionId, b: SessionId)
    requires a in byId && b in byId
  {
    || byId[a].createdAt < byId[b].createdAt
    || (byId[a].createdAt == byId[b].createdAt && ListedBefore(ids, a, b))
  }

  ghost predicate ListedBefore(ids: seq<SessionId>, a: SessionId, b: SessionId) {
    exists i, j :: 0 <= i < j < |ids| && ids[i] == a && ids[j] == b
  }

  ghost predicate InOrder(byId: map<SessionId, SessionData>, ids: seq<SessionId>, r: seq<SessionId>)
    requires forall x :: x in r ==> x in byId
  {
    forall i, j :: 0 <= i < j < |r| ==> Before(byId, ids, r[i], r[j])
  }

  lemma {:induction false} InsertByAgeInOrder(
      byId: map<SessionId, SessionData>, ids: seq<SessionId>, r: seq<SessionId>, x: SessionId)
    requires x in byId && forall y :: y in r ==> y in byId
    requires InOrder(byId, ids, r)
    requires forall y :: y in r ==> ListedBefore(ids, y, x)
    ensures InOrder(byId, ids, InsertByAge(byId, r, x))
  {
    if r != [] && byId[r[|r| - 1]].createdAt > byId[x].createdAt {
      var front, last := r[..|r| - 1], r[|r| - 1];
      InsertByAgeInOrder(byId, ids, front, x);
      var inserted := InsertByAge(byId, front, x);
      forall k | 0 <= k < |inserted| ensures Before(byId, ids, inserted[k], last) {
        assert inserted[k] in inserted;
        if inserted[k] != x {
          var m :| 0 <= m < |front| && front[m] == inserted[k];
          assert Before(byId, ids, r[m], r[|r| - 1]);
        }
      }
    } else {
      forall k | 0 <= k < |r| ensures Before(byId, ids, r[k], x) {
        assert r[k] in r;
        assert k < |r| - 1 ==> Before(byId, ids, r[k], r[|r| - 1]);
      }
    }
  }

  lemma {:induction false} SortedByAgeInOrder(byId: map<SessionId, SessionData>, ids: seq<SessionId>)
    requires forall x :: x in ids ==> x in byId
    requires NoDuplicates(ids)
    ensures InOrder(byId, ids, SortedByAge(byId, ids))
    ensures NoDuplicates(SortedByAge(byId, ids))
  {
    if ids != [] {
      var front, last := ids[..|ids| - 1], ids[|ids| - 1];
      SortedByAgeInOrder(byId, front);
      var r := SortedByAge(byId, front);
      forall i, j | 0 <= i < j < |r| ensures Before(byId, ids, r[i], r[j]) {
        assert Before(byId, front, r[i], r[j]);
        if ListedBefore(front, r[i], r[j]) {
          var m, n :| 0 <= m < n < |front| && front[m] == r[i] && front[n] == r[j];
          assert ids[m] == r[i] && ids[n] == r[j];
        }
      }
      forall y | y in r ensures ListedBefore(ids, y, last) {
        var m :| 0 <= m < |front| && front[m] == y;
        assert ids[m] == y && ids[|ids| - 1] == last;
      }
      InsertByAgeInOrder(byId, ids, r, last);
      InOrderNoDuplicates(byId, ids, SortedByAge(byId, ids));
    }
  }

  lemma InOrderNoDuplicates(byId: map<SessionId, SessionData>, ids: seq<SessionId>, r: seq<SessionId>)
    requires NoDuplicates(ids)
    requires forall x :: x in r ==> x in byId
    requires InOrder(byId, ids, r)
    ensures NoDuplicates(r)
  {
    forall i, j | 0 <= i < j < |r| ensures r[i] != r[j] {
      assert Before(byId, ids, r[i], r[j]);
    }
  }

  lemma KeptLength(ids: seq<SessionId>, out: seq<SessionId>)
    requires NoDuplicates(ids) && NoDuplicates(out)
    requires forall x :: x in out ==> x in ids
    ensures |Kept(ids, Elements(out))| == |ids| - |out|
  {
    var left := Kept(ids, Elements(out));
    KeptMembers(ids, Elements(out));
    ElementsAreMembers(ids);
    ElementsAreMembers(out);
    ElementsAreMembers(left);
    assert Elements(left) == Elements(ids) - Elements(out);
    assert Elements(out) * Elements(ids) == Elements(out);
  }

  /** A login beyond the cap pushes out exactly as many sessions of its user as are too many. */
  lemma SaveKeepsTheCap(st: Store, id: SessionId, data: SessionData)
    requires st.Valid()
    ensures Saved(st, id, data).Valid()
    ensures |Saved(st, id, data).Ids(data.user)| <= 20
    ensures Evicted(st, id, data) != [] ==> |Saved(st, id, data).Ids(data.user)| == 20
    ensures forall u :: u != data.user ==> Saved(st, id, data).Ids(u) == Kept(st.Ids(u), {id})
  {
    InsertedValid(st, id, data);
    var ins, out := Inserted(st, id, data), Evicted(st, id, data);
    WithoutValid(ins, Elements(out));
    var own := ins.Ids(data.user);
    assert NoDuplicates(own) && forall x :: x in own <==> ins.Owns(data.user, x);
    SortedByAgeInOrder(ins.byId, own);
    WithoutIds(ins, Elements(out), data.user);
    KeptLength(own, out);
    forall v | v != data.user ensures Saved(st, id, data).Ids(v) == Kept(st.Ids(v), {id}) {
      SaveLeavesOthers(st, id, data, v);
    }
  }

  lemma SaveLeavesOthers(st: Store, id: SessionId, data: SessionData, v: UserId)
    requires st.Valid() && v != data.user
    ensures Saved(st, id, data).Ids(v) == Kept(st.Ids(v), {id})
  {
    InsertedValid(st, id, data);
    var ins, out := Inserted(st, id, data), Evicted(st, id, data);
    WithoutIds(st, {id}, v);
    WithoutIds(ins, Elements(out), v);
    ElementsAreMembers(out);
    forall x | x in ins.Ids(v) ensures x !in Elements(out) {
      assert ins.Owns(v, x);
      assert x in ins.Ids(data.user) ==> ins.Owns(data.user, x);
    }
    KeptAll(ins.Ids(v), Elements(out));
  }

  /** Whatever is pushed out is older than whatever stays, ties going to the one listed last. */
  lemma SaveEvictsTheOldest(st: Store, id: SessionId, data: SessionData, gone: SessionId, stays: SessionId)
    requires st.Valid()
    requires gone in Evicted(st, id, data)
    requires stays in Saved(st, id, data).Ids(data.user)
    ensures gone in Inserted(st, id, data).byId && stays in Inserted(st, id, data).byId
    ensures Inserted(st, id, data).byId[gone].user == data.user
    ensures Before(Inserted(st, id, data).byId, Inserted(st, id, data).Ids(data.user), gone, stays)
  {
    InsertedValid(st, id, data);
    var ins, out := Inserted(st, id, data), Evicted(st, id, data);
    var own := ins.Ids(data.user);
    ElementsAreMembers(out);
    WithoutIds(ins, Elements(out), data.user);
    KeptMembers(own, Elements(out));
    assert NoDuplicates(own) && forall x :: x in own <==> ins.Owns(data.user, x);
    SortedByAgeInOrder(ins.byId, own);
    var sorted := SortedByAge(ins.byId, own);
    var i :| 0 <= i < |out| && out[i] == gone;
    assert stays in sorted && stays !in out;
    var j :| 0 <= j < |sorted| && sorted[j] == stays;
    assert out == sorted[..|out|];
    assert j >= |out|;
  }

  /** A login at least as new as every other of its user is never the one pushed out. */
  lemma SaveKeepsTheNewest(st: Store, id: SessionId, data: SessionData)
    requires st.Valid()
    requires forall x :: st.Owns(data.user, x) ==> st.byId[x].createdAt <= data.createdAt
    ensures id !in Evicted(st, id, data)
    ensures id in Saved(st, id, data).byId && Saved(st, id, data).byId[id] == data
  {
    InsertedValid(st, id, data);
    var ins := Inserted(st, id, data);
    var own := ins.Ids(data.user);
    assert NoDuplicates(own) && forall x :: x in own <==> ins.Owns(data.user, x);
    var sorted := SortedByAge(ins.byId, own);
    SortedByAgeInOrder(ins.byId, own);
    assert own[|own| - 1] == id;
    forall x | x in own ensures ins.byId[x].createdAt <= ins.byId[id].createdAt {
      assert ins.Owns(data.user, x);
      assert x == id || st.Owns(data.user, x);
    }
    NewestSortsLast(ins.byId, own);
    assert sorted[|sorted| - 1] == id;
    ElementsAreMembers(Evicted(st, id, data));
  }

  /** The sort is stable: the one listed last stays last unless an earlier one is newer. */
  lemma NewestSortsLast(byId: map<SessionId, SessionData>, ids: seq<SessionId>)
    requires ids != [] && forall x :: x in ids ==> x in byId
    requires forall x :: x in ids ==> byId[x].createdAt <= byId[ids[|ids| - 1]].createdAt
    ensures SortedByAge(byId, ids)[|ids| - 1] == ids[|ids| - 1]
  {
    var front := SortedByAge(byId, ids[..|ids| - 1]);
    if front != [] {
      assert front[|front| - 1] in front && front[|front| - 1] in ids;
    }
  }

  /** Saving under a fresh id loses nothing: what was stored plus the login is what is stored plus what is handed back. */
  lemma SaveConserves(st: Store, id: SessionId, data: SessionData)
    requires st.Valid()
    requires id !in st.byId
    ensures NoDuplicates(Evicted(st, id, data))
    ensures forall x :: x in Evicted(st, id, data) ==> x in st.byId.Keys + {id} && x !in Saved(st, id, data).byId
    ensures forall x :: x in st.byId.Keys + {id} ==> x in Evicted(st, id, data) || x in Saved(st, id, data).byId
    ensures forall x :: x in Saved(st, id, data).byId ==>
      x in st.byId.Keys + {id} && Saved(st, id, data).byId[x] == st.byId[id := data][x]
  {
    InsertedValid(st, id, data);
    var ins := Inserted(st, id, data);
    ElementsAreMembers(Evicted(st, id, data));
    assert NoDuplicates(ins.Ids(data.user)) && forall x :: x in ins.Ids(data.user) <==> ins.Owns(data.user, x);
    SortedByAgeInOrder(ins.byId, ins.Ids(data.user));
  }
}
