// The session store as the program keeps it: two maps behind one lock, updated in place.

module InMemorySessions {
  import opened Clock
  import opened Wrappers
  import opened Session
  import opened SessionStore

  /** The sessions `ids` name, in that order; a name that is missing or repeated adds nothing. */
  function Collected(byId: map<SessionId, SessionData>, ids: seq<SessionId>): seq<SessionData> {
    if ids == [] then []
    else
      var front, last := ids[..|ids| - 1], ids[|ids| - 1];
      Collected(byId, front) + if last in byId && last !in front then [byId[last]] else []
  }

  lemma {:induction false} CollectedEach(byId: map<SessionId, SessionData>, ids: seq<SessionId>)
    requires NoDuplicates(ids) && forall id :: id in ids ==> id in byId
    ensures |Collected(byId, ids)| == |ids|
    ensures forall i :: 0 <= i < |ids| ==> Collected(byId, ids)[i] == byId[ids[i]]
  {
    if ids != [] {
      CollectedEach(byId, ids[..|ids| - 1]);
    }
  }

  /** `user`'s index entry without `id`; nobody else's is touched. */
  function UnindexedOne(byUser: Index, id: SessionId, user: UserId): Index {
    if user !in byUser then byUser
    else
      var left := Kept(byUser[user], {id});
      if left == [] then byUser - {user} else byUser[user := left]
  }

  class Sessions {
    var byId: map<SessionId, SessionData>
    var byUser: Index

    ghost function Contents(): Store
      reads this
    {
      Store(byId, byUser)
    }

    ghost predicate Valid()
      reads this
    {
      Contents().Valid()
    }

    constructor ()
      ensures Valid() && Contents() == Store(map[], map[])
    {
      byId, byUser := map[], map[];
    }

    method Unindex(id: SessionId, user: UserId)
      modifies this`byUser
      ensures byUser == UnindexedOne(old(byUser), id, user)
    {
      if user in byUser {
        var ids, left := byUser[user], [];
        for i := 0 to |ids|
          invariant byUser == old(byUser) && left == Kept(ids[..i], {id})
        {
          KeptConcat(ids[..i], [ids[i]], {id});
          assert ids[..i + 1] == ids[..i] + [ids[i]];
          if ids[i] != id {
            left := left + [ids[i]];
          }
        }
        assert ids[..|ids|] == ids;
        if left == [] {
          byUser := byUser - {user};
        } else {
          byUser := byUser[user := left];
        }
      }
    }

    method Insert(id: SessionId, data: SessionData)
      requires Valid()
      modifies this
      ensures Valid() && Contents() == Inserted(old(Contents()), id, data)
    {
      InsertedValid(Contents(), id, data);
      if id in byId {
        var replaced := byId[id];
        byId := byId[id := data];
        UnindexOwner(old(Contents()), id);
        Unindex(id, replaced.user);
      } else {
        UnindexNobody(Contents(), id);
        byId := byId[id := data];
      }
      var ids := if data.user in byUser then byUser[data.user] else [];
      byUser := byUser[data.user := ids + [id]];
      assert byId == Inserted(old(Contents()), id, data).byId;
    }

    method Remove(id: SessionId) returns (data: Option<SessionData>)
      requires Valid()
      modifies this
      ensures Valid() && Contents() == Without(old(Contents()), {id})
      ensures data == if id in old(byId) then Some(old(byId)[id]) else None
    {
      WithoutValid(Contents(), {id});
      if id !in byId {
        UnindexNobody(Contents(), id);
        assert byId - {id} == byId;
        return None;
      }
      data := Some(byId[id]);
      byId := byId - {id};
      UnindexOwner(old(Contents()), id);
      Unindex(id, data.value.user);
    }

    method RemoveAll(ids: seq<SessionId>) returns (removed: seq<SessionData>)
      requires Valid()
      modifies this
      ensures Valid() && Contents() == Without(old(Contents()), Elements(ids))
      ensures removed == Collected(old(byId), ids)
    {
      ghost var was := Contents();
      WithoutNobody(was);
      removed := [];
      for i := 0 to |ids|
        invariant Valid() && Contents() == Without(was, Elements(ids[..i]))
        invariant removed == Collected(was.byId, ids[..i])
      {
        WithoutTwice(was, Elements(ids[..i]), {ids[i]});
        ElementsPush(ids[..i], ids[i]);
        assert ids[..i + 1] == ids[..i] + [ids[i]];
        assert Collected(was.byId, ids[..i + 1]) == Collected(was.byId, ids[..i])
          + if ids[i] in was.byId && ids[i] !in ids[..i] then [was.byId[ids[i]]] else [];
        var data := Remove(ids[i]);
        if data.Some? {
          removed := removed + [data.value];
        }
      }
      assert ids[..|ids|] == ids;
    }

    /** Stores a new session and hands back its user's oldest beyond the cap. */
    method SaveSession(id: SessionId, data: SessionData) returns (evicted: seq<SessionData>)
      requires Valid()
      modifies this
      ensures Valid() && Contents() == Saved(old(Contents()), id, data)
      ensures evicted == Collected(Inserted(old(Contents()), id, data).byId, Evicted(old(Contents()), id, data))
    {
      Insert(id, data);
      var oldest := BeyondTheCap(data.user);
      assert oldest == Evicted(old(Contents()), id, data);
      evicted := RemoveAll(oldest);
    }

    /** The user's oldest sessions, as many as are too many. */
    method BeyondTheCap(user: UserId) returns (oldest: seq<SessionId>)
      requires Valid()
      ensures forall x :: x in Contents().Ids(user) ==> x in byId
      ensures oldest == Oldest(Contents(), user)
    {
      var own := OwnIds(user);
      assert forall x :: x in own ==> Contents().Owns(user, x);
      var excess := if |own| > MAX_SESSIONS_PER_USER then |own| - MAX_SESSIONS_PER_USER else 0;
      oldest := SortedByAge(byId, own)[..excess];
    }

    /** The ids the index lists for `user`, all of them still stored. */
    method OwnIds(user: UserId) returns (own: seq<SessionId>)
      requires Valid()
      ensures own == Contents().Ids(user)
    {
      var listed := if user in byUser then byUser[user] else [];
      own := [];
      for i := 0 to |listed|
        invariant own == listed[..i]
      {
        assert listed[i] in Contents().Ids(user) && Contents().Owns(user, listed[i]);
        if listed[i] in byId {
          own := own + [listed[i]];
        }
      }
    }

    /** An answer is listed under its own user and no other; without one the index does not know the id. */
    method GetSession(id: SessionId) returns (data: Option<SessionData>)
      requires Valid()
      ensures data.Some? ==> forall u :: id in Contents().Ids(u) <==> u == data.value.user
      ensures data.None? ==> forall u :: id !in Contents().Ids(u)
      ensures data.Some? ==> id in byId && byId[id] == data.value
    {
      assert forall u :: id in Contents().Ids(u) <==> Contents().Owns(u, id);
      data := if id in byId then Some(byId[id]) else None;
    }

    /** A session that is gone is not brought back. */
    method UpdateSession(id: SessionId, data: SessionData) returns (replaced: bool)
      requires Valid()
      modifies this
      ensures Valid() && Contents() == Updated(old(Contents()), id, data)
      ensures replaced <==> id in old(byId)
    {
      if id !in byId {
        return false;
      }
      ghost var was := Contents();
      var _ := Remove(id);
      WithoutTwice(was, {id}, {id});
      assert {id} + {id} == {id};
      Insert(id, data);
      return true;
    }

    method TakeSession(id: SessionId) returns (data: Option<SessionData>)
      requires Valid()
      modifies this
      ensures Valid() && Contents() == Without(old(Contents()), {id})
      ensures data == if id in old(byId) then Some(old(byId)[id]) else None
    {
      data := Remove(id);
    }

    /** Finds the sessions through the index where it can, yet drops exactly what a full scan would match. */
    method Revoke(sel: Selector) returns (ended: seq<SessionData>, ghost ids: seq<SessionId>)
      requires Valid()
      modifies this
      ensures Valid() && Contents() == Without(old(Contents()), old(Contents()).Matching(sel))
      ensures NoDuplicates(ids) && Elements(ids) == old(Contents()).Matching(sel)
      ensures ended == Collected(old(byId), ids) && |ended| == |ids|
    {
      var found := [];
      if sel.OfLogin? {
        var all := byId;
        found := MatchingIds(id => id in all && sel.Matches(all[id]), all.Keys);
      } else {
        var listed := if sel.user in byUser then byUser[sel.user] else [];
        assert listed == Contents().Ids(sel.user) && NoDuplicates(listed);
        for i := 0 to |listed|
          invariant NoDuplicates(found)
          invariant forall x :: x in found <==> x in listed[..i] && x in byId && sel.Matches(byId[x])
        {
          assert listed[i] !in listed[..i];
          if listed[i] in byId && sel.Matches(byId[listed[i]]) {
            found := found + [listed[i]];
          }
        }
        assert listed[..|listed|] == listed;
        assert forall x :: x in listed <==> Contents().Owns(sel.user, x);
      }
      ElementsAreMembers(found);
      assert Elements(found) == Contents().Matching(sel);
      CollectedEach(byId, found);
      ids := found;
      ended := RemoveAll(found);
    }

    method SweepExpired(now: Time)
      requires Valid()
      modifies this
      ensures Valid() && Contents() == Without(old(Contents()), old(Contents()).Expired(now))
    {
      var all := byId;
      var expired := MatchingIds(id => id in all && all[id].EndsAt() <= now, all.Keys);
      ElementsAreMembers(expired);
      assert Elements(expired) == Contents().Expired(now);
      var _ := RemoveAll(expired);
    }
  }

  /** The ids of `all` that satisfy `wanted`, in whatever order the map hands them out. */
  method MatchingIds(wanted: SessionId -> bool, all: set<SessionId>) returns (ids: seq<SessionId>)
    ensures NoDuplicates(ids)
    ensures forall id :: id in ids <==> id in all && wanted(id)
  {
    var rest := all;
    ids := [];
    while rest != {}
      invariant rest <= all && NoDuplicates(ids)
      invariant forall id :: id in ids <==> id in all - rest && wanted(id)
    {
      var id :| id in rest;
      rest := rest - {id};
      if wanted(id) {
        ids := ids + [id];
      }
    }
  }

  lemma UnindexOwner(st: Store, id: SessionId)
    requires st.Valid() && id in st.byId
    ensures UnindexedOne(st.byUser, id, st.byId[id].user) == Without(st, {id}).byUser
  {
    var user := st.byId[id].user;
    assert st.Owns(user, id);
    assert id in st.Ids(user);
    forall u | u in st.byUser && u != user ensures Kept(st.byUser[u], {id}) == st.byUser[u] {
      assert !st.Owns(u, id) && st.Ids(u) == st.byUser[u];
      KeptAll(st.byUser[u], {id});
    }
  }

  lemma UnindexNobody(st: Store, id: SessionId)
    requires st.Valid() && id !in st.byId
    ensures Without(st, {id}).byUser == st.byUser
  {
    forall u | u in st.byUser ensures Kept(st.byUser[u], {id}) == st.byUser[u] {
      assert !st.Owns(u, id) && st.Ids(u) == st.byUser[u];
      KeptAll(st.byUser[u], {id});
    }
  }

  lemma WithoutNobody(st: Store)
    requires st.Valid()
    ensures Without(st, {}) == st
  {
    forall u | u in st.byUser ensures Kept(st.byUser[u], {}) == st.byUser[u] {
      KeptAll(st.byUser[u], {});
    }
    assert st.byId - {} == st.byId;
  }

  lemma WithoutTwice(st: Store, first: set<SessionId>, second: set<SessionId>)
    ensures Without(Without(st, first), second) == Without(st, first + second)
  {
    forall u ensures Kept(Kept(st.Ids(u), first), second) == Kept(st.Ids(u), first + second) {
      KeptTwice(st.Ids(u), first, second);
    }
    var once, twice := Without(st, first), Without(st, first + second);
    forall u ensures Without(once, second).Ids(u) == twice.Ids(u) {
      WithoutIds(st, first, u);
      WithoutIds(once, second, u);
      WithoutIds(st, first + second, u);
    }
    assert forall u :: u in twice.byUser <==> twice.Ids(u) != [];
    assert forall u :: u in Without(once, second).byUser <==> Without(once, second).Ids(u) != [];
    assert twice.byUser == Without(once, second).byUser by {
      forall u | u in twice.byUser ensures twice.byUser[u] == Without(once, second).byUser[u] {
        assert twice.Ids(u) == Without(once, second).Ids(u);
      }
    }
    assert twice.byId == Without(once, second).byId;
  }
}
