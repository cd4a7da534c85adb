// One lock per session, counted by reference, so that a session's requests share a refresh.

/** The lock table as a value: the map, every lock's reference count, and who holds a handle. */
module RefreshLock {
  import opened Session

  type Lock = nat
  type TaskId = nat

  datatype Phase = Waiting | Holding

  /** A request's own reference to the lock of `session`. */
  datatype Handle = Handle(session: SessionId, lock: Lock, phase: Phase)

  datatype Table = Table(
    locks: map<SessionId, Lock>,
    strong: map<Lock, nat>,
    handles: map<TaskId, Handle>)
  {
    /** The requests waiting for `lock` or holding it. */
    function Users(lock: Lock): set<TaskId> {
      set t | t in handles && handles[t].lock == lock
    }

    /** An entry nobody waits for or holds. */
    predicate Orphan(id: SessionId) {
      id in locks && Users(locks[id]) == {}
    }

    ghost predicate EntriesCounted() {
      forall id :: id in locks ==> locks[id] in strong
    }

    ghost predicate EntriesDistinct() {
      forall a, b :: a in locks && b in locks && locks[a] == locks[b] ==> a == b
    }

    /** Every waiter and holder of a session uses the map's own lock. */
    ghost predicate HandlesCurrent() {
      forall t :: t in handles ==>
        handles[t].session in locks && locks[handles[t].session] == handles[t].lock
    }

    ghost predicate InMap(lock: Lock) {
      exists id :: id in locks && locks[id] == lock
    }

    /** A lock lives in the map, and counts the map's reference and its users'. */
    ghost predicate CountExact(lock: Lock)
      requires lock in strong
    {
      InMap(lock) && strong[lock] == 1 + |Users(lock)|
    }

    ghost predicate CountsExact() {
      forall l :: l in strong ==> CountExact(l)
    }

    ghost predicate OneHolder() {
      forall t, u | t in handles && u in handles && handles[t].phase.Holding? && handles[u].phase.Holding? ::
        handles[t].lock == handles[u].lock ==> t == u
    }

    ghost predicate Valid() {
      EntriesCounted() && EntriesDistinct() && HandlesCurrent() && CountsExact() && OneHolder()
    }

    ghost predicate Free(lock: Lock) {
      forall u :: u in handles && handles[u].lock == lock ==> handles[u].phase.Waiting?
    }
  }

  const EMPTY: Table := Table(map[], map[], map[])

  /** Dropping one reference frees the lock with the last one. */
  function Dropped(strong: map<Lock, nat>, lock: Lock): map<Lock, nat> {
    if lock !in strong then strong
    else if strong[lock] <= 1 then strong - {lock}
    else strong[lock := strong[lock] - 1]
  }

  /** Takes a reference to the session's lock, made with `unused` if there is none. */
  function Asked(tb: Table, t: TaskId, id: SessionId, unused: Lock): Table
    requires tb.EntriesCounted()
  {
    if id in tb.locks then
      var l := tb.locks[id];
      Table(tb.locks, tb.strong[l := tb.strong[l] + 1], tb.handles[t := Handle(id, l, Waiting)])
    else
      Table(tb.locks[id := unused], tb.strong[unused := 2], tb.handles[t := Handle(id, unused, Waiting)])
  }

  function Granted(tb: Table, t: TaskId): Table
    requires t in tb.handles
  {
    tb.(handles := tb.handles[t := tb.handles[t].(phase := Holding)])
  }

  /** A waiter's future is dropped: only its reference goes. */
  function GivenUp(tb: Table, t: TaskId): Table
    requires t in tb.handles
  {
    Table(tb.locks, Dropped(tb.strong, tb.handles[t].lock), tb.handles - {t})
  }

  /** The turn is handed over: one reference fewer, and no entry if that leaves a count of one. */
  function Released(tb: Table, t: TaskId): Table
    requires t in tb.handles
  {
    var id := tb.handles[t].session;
    var strong := Dropped(tb.strong, tb.handles[t].lock);
    if id in tb.locks && tb.locks[id] in strong && strong[tb.locks[id]] == 1
    then Table(tb.locks - {id}, Dropped(strong, tb.locks[id]), tb.handles - {t})
    else Table(tb.locks, strong, tb.handles - {t})
  }

  /** The table without the entries of `ids`, whose locks go with them. */
  function Forgotten(tb: Table, ids: set<SessionId>): Table {
    Table(tb.locks - ids, tb.strong - LocksOf(tb, ids), tb.handles)
  }

  function LocksOf(tb: Table, ids: set<SessionId>): set<Lock> {
    set id | id in ids && id in tb.locks :: tb.locks[id]
  }

  function Stale(tb: Table): set<SessionId>
    requires tb.EntriesCounted()
  {
    set id | id in tb.locks && tb.strong[tb.locks[id]] <= 1
  }

  /** Only entries somebody else references stay. */
  function Pruned(tb: Table): Table
    requires tb.EntriesCounted()
  {
    Forgotten(tb, Stale(tb))
  }

  // ----- Every operation keeps the table valid

  lemma UsersAdded(tb: Table, after: Table, t: TaskId, h: Handle, l: Lock)
    requires t !in tb.handles && after.handles == tb.handles[t := h]
    ensures |after.Users(l)| == |tb.Users(l)| + if h.lock == l then 1 else 0
  {
    var added: set<TaskId> := if h.lock == l then {t} else {};
    forall u ensures u in after.Users(l) <==> u in tb.Users(l) + added {
    }
    assert after.Users(l) == tb.Users(l) + added;
  }

  lemma UsersRemoved(tb: Table, after: Table, t: TaskId, l: Lock)
    requires t in tb.handles && after.handles == tb.handles - {t}
    ensures |after.Users(l)| == |tb.Users(l)| - if tb.handles[t].lock == l then 1 else 0
  {
    if tb.handles[t].lock == l {
      assert t in tb.Users(l) && after.Users(l) == tb.Users(l) - {t};
    } else {
      assert after.Users(l) == tb.Users(l);
    }
  }

  lemma AskedCount(tb: Table, t: TaskId, id: SessionId, unused: Lock, l: Lock)
    requires tb.EntriesCounted() && tb.HandlesCurrent() && tb.CountsExact()
    requires t !in tb.handles && unused !in tb.strong
    requires l in Asked(tb, t, id, unused).strong
    ensures Asked(tb, t, id, unused).CountExact(l)
  {
    var after := Asked(tb, t, id, unused);
    UsersAdded(tb, after, t, after.handles[t], l);
    if l in tb.strong {
      assert tb.CountExact(l);
      var k :| k in tb.locks && tb.locks[k] == l;
      assert after.locks[k] == l;
    } else {
      assert tb.Users(l) == {};
      assert after.locks[id] == l;
    }
  }

  lemma AskedEntries(tb: Table, t: TaskId, id: SessionId, unused: Lock)
    requires tb.Valid() && t !in tb.handles && unused !in tb.strong
    ensures Asked(tb, t, id, unused).EntriesCounted() && Asked(tb, t, id, unused).EntriesDistinct()
    ensures Asked(tb, t, id, unused).HandlesCurrent() && Asked(tb, t, id, unused).OneHolder()
  {
  }

  lemma AskedValid(tb: Table, t: TaskId, id: SessionId, unused: Lock)
    requires tb.Valid() && t !in tb.handles && unused !in tb.strong
    ensures Asked(tb, t, id, unused).Valid()
    ensures t in Asked(tb, t, id, unused).handles
    ensures Asked(tb, t, id, unused).handles[t].session == id && Asked(tb, t, id, unused).handles[t].phase.Waiting?
  {
    AskedEntries(tb, t, id, unused);
    forall l | l in Asked(tb, t, id, unused).strong ensures Asked(tb, t, id, unused).CountExact(l) {
      AskedCount(tb, t, id, unused, l);
    }
  }

  lemma GrantedValid(tb: Table, t: TaskId)
    requires tb.Valid() && t in tb.handles && tb.Free(tb.handles[t].lock)
    ensures Granted(tb, t).Valid()
  {
    var after := Granted(tb, t);
    forall l ensures after.Users(l) == tb.Users(l) {
    }
  }

  lemma GivenUpValid(tb: Table, t: TaskId)
    requires tb.Valid() && t in tb.handles
    ensures GivenUp(tb, t).Valid()
  {
    var after, lock := GivenUp(tb, t), tb.handles[t].lock;
    assert t in tb.Users(lock) && tb.CountExact(lock);
    forall l | l in after.strong ensures after.CountExact(l) {
      assert tb.CountExact(l);
      UsersRemoved(tb, after, t, l);
    }
  }

  lemma ForgottenValid(tb: Table, ids: set<SessionId>)
    requires tb.Valid()
    requires forall id :: id in ids ==> tb.Orphan(id)
    ensures Forgotten(tb, ids).Valid()
  {
    var after := Forgotten(tb, ids);
    forall l | l in after.strong ensures after.CountExact(l) {
      assert tb.CountExact(l) && after.Users(l) == tb.Users(l);
      var k :| k in tb.locks && tb.locks[k] == l;
      assert k in after.locks;
    }
    forall u | u in after.handles ensures after.handles[u].session in after.locks {
      assert u in tb.Users(tb.handles[u].lock);
    }
  }

  lemma OrphanIffStale(tb: Table, id: SessionId)
    requires tb.Valid() && id in tb.locks
    ensures tb.Orphan(id) <==> tb.strong[tb.locks[id]] == 1
    ensures tb.Orphan(id) <==> id in Stale(tb)
  {
    assert tb.CountExact(tb.locks[id]);
  }

  lemma ForgottenOne(tb: Table, id: SessionId)
    requires id in tb.locks
    ensures Forgotten(tb, {id}) == Table(tb.locks - {id}, tb.strong - {tb.locks[id]}, tb.handles)
  {
    assert LocksOf(tb, {id}) == {tb.locks[id]};
  }

  lemma ForgetNone(tb: Table)
    ensures Forgotten(tb, {}) == tb
  {
    assert LocksOf(tb, {}) == {};
    assert tb.locks - {} == tb.locks && tb.strong - {} == tb.strong;
  }

  lemma ReleasedIs(tb: Table, t: TaskId)
    requires tb.Valid() && t in tb.handles
    ensures Released(tb, t) ==
      var id := tb.handles[t].session;
      Forgotten(GivenUp(tb, t), if GivenUp(tb, t).Orphan(id) then {id} else {})
  {
    GivenUpValid(tb, t);
    var mid, id := GivenUp(tb, t), tb.handles[t].session;
    OrphanIffStale(mid, id);
    ForgottenOne(mid, id);
    ForgetNone(mid);
  }

  lemma ReleasedValid(tb: Table, t: TaskId)
    requires tb.Valid() && t in tb.handles
    ensures Released(tb, t).Valid()
    ensures Released(tb, t).handles == tb.handles - {t}
  {
    GivenUpValid(tb, t);
    ReleasedIs(tb, t);
    var mid, id := GivenUp(tb, t), tb.handles[t].session;
    ForgottenValid(mid, if mid.Orphan(id) then {id} else {});
  }

  lemma PrunedValid(tb: Table)
    requires tb.Valid()
    ensures Pruned(tb).Valid()
    ensures forall id :: id in Pruned(tb).locks <==> id in tb.locks && !tb.Orphan(id)
    ensures forall id :: id in Pruned(tb).locks ==> Pruned(tb).locks[id] == tb.locks[id]
    ensures forall id :: !Pruned(tb).Orphan(id)
  {
    var after := Pruned(tb);
    forall id | id in tb.locks ensures id in Stale(tb) <==> tb.Orphan(id) {
      OrphanIffStale(tb, id);
    }
    ForgottenValid(tb, Stale(tb));
    forall l ensures after.Users(l) == tb.Users(l) {
    }
  }

  // ----- What validity means

  /** At most one request holds the turn of a session. */
  lemma OneHolderPerSession(tb: Table, t: TaskId, u: TaskId)
    requires tb.Valid() && t in tb.handles && u in tb.handles
    requires tb.handles[t].phase.Holding? && tb.handles[u].phase.Holding?
    requires tb.handles[t].session == tb.handles[u].session
    ensures t == u
  {
    assert tb.handles[t].lock == tb.locks[tb.handles[t].session];
  }

  /** Handing the turn over never leaves an entry behind; only a waiter that gives up can, being the last. */
  lemma WhoLeavesOrphans(tb: Table, t: TaskId)
    requires tb.Valid() && t in tb.handles
    requires forall id :: !tb.Orphan(id)
    ensures forall id :: !Released(tb, t).Orphan(id)
    ensures forall id :: GivenUp(tb, t).Orphan(id) <==>
      id == tb.handles[t].session && tb.Users(tb.handles[t].lock) == {t}
  {
    var mid, lock, own := GivenUp(tb, t), tb.handles[t].lock, tb.handles[t].session;
    assert t in tb.Users(lock) && mid.Users(lock) == tb.Users(lock) - {t};
    assert tb.locks[own] == lock;
    forall id ensures mid.Orphan(id) <==> id == own && tb.Users(lock) == {t} {
      if id in tb.locks && id != own {
        assert mid.Users(tb.locks[id]) == tb.Users(tb.locks[id]);
        assert !tb.Orphan(id);
      }
    }
    ReleasedIs(tb, t);
    var after := Released(tb, t);
    forall id | id in after.locks ensures !after.Orphan(id) {
      assert after.Users(tb.locks[id]) == mid.Users(tb.locks[id]);
      assert !mid.Orphan(id);
    }
  }

  lemma AskingLeavesNoOrphan(tb: Table, t: TaskId, id: SessionId, unused: Lock)
    requires tb.Valid() && t !in tb.handles && unused !in tb.strong
    requires forall k :: !tb.Orphan(k)
    ensures forall k :: !Asked(tb, t, id, unused).Orphan(k)
  {
    var after := Asked(tb, t, id, unused);
    forall k | k in after.locks ensures after.Users(after.locks[k]) != {} {
      if k == id {
        assert t in after.Users(after.locks[k]);
      } else {
        assert !tb.Orphan(k);
        var u :| u in tb.Users(tb.locks[k]);
        assert u in after.Users(after.locks[k]);
      }
    }
  }
}

/** The table as the program keeps it, behind one mutex and updated in place. */
module RefreshLocks {
  import opened Session
  import opened RefreshLock

  class RefreshLocks {
    var locks: map<SessionId, Lock>
    var strong: map<Lock, nat>
    /** The requests' own handles: futures waiting for a lock and guards. */
    ghost var handles: map<TaskId, Handle>

    ghost function Contents(): Table
      reads this
    {
      Table(locks, strong, handles)
    }

    ghost predicate Valid()
      reads this
    {
      Contents().Valid()
    }

    constructor ()
      ensures Valid() && Contents() == EMPTY
    {
      locks, strong, handles := map[], map[], map[];
    }

    /** The part of `acquire` before its await. */
    method Ask(id: SessionId, unused: Lock, ghost t: TaskId) returns (lock: Lock)
      requires Valid() && t !in handles && unused !in strong
      modifies this
      ensures Valid() && Contents() == Asked(old(Contents()), t, id, unused)
      ensures locks[id] == lock && (id in old(locks) ==> lock == old(locks)[id])
    {
      ghost var asked := Asked(Contents(), t, id, unused);
      AskedValid(Contents(), t, id, unused);
      lock := TakeReference(id, unused);
      handles := handles[t := Handle(id, lock, Waiting)];
      assert Contents() == asked;
    }

    /** The lock's entry is made if need be, with the map's own reference; one more is for the caller. */
    method TakeReference(id: SessionId, unused: Lock) returns (lock: Lock)
      requires id in locks ==> locks[id] in strong
      modifies this`locks, this`strong
      ensures lock == if id in old(locks) then old(locks)[id] else unused
      ensures locks == if id in old(locks) then old(locks) else old(locks)[id := unused]
      ensures strong == old(strong)[lock := if id in old(locks) then old(strong)[lock] + 1 else 2]
    {
      if id !in locks {
        SetTwice(strong, unused, 1, 2);
        locks := locks[id := unused];
        strong := strong[unused := 1];
      }
      lock := locks[id];
      strong := strong[lock := strong[lock] + 1];
    }

    method DropReference(lock: Lock)
      modifies this`strong
      ensures strong == Dropped(old(strong), lock)
    {
      if lock in strong {
        if strong[lock] <= 1 {
          strong := strong - {lock};
        } else {
          strong := strong[lock := strong[lock] - 1];
        }
      }
    }

    /** A request goes away while it waits: its future drops its reference and touches nothing else. */
    method GiveUp(lock: Lock, ghost t: TaskId)
      requires Valid() && t in handles && handles[t].lock == lock
      modifies this
      ensures Valid() && Contents() == GivenUp(old(Contents()), t)
    {
      GivenUpValid(Contents(), t);
      DropReference(lock);
      handles := handles - {t};
    }

    /** Dropping the guard. */
    method Release(id: SessionId, lock: Lock, ghost t: TaskId)
      requires Valid() && t in handles && handles[t].session == id && handles[t].lock == lock
      modifies this
      ensures Valid() && Contents() == Released(old(Contents()), t)
    {
      ReleasedValid(Contents(), t);
      DropReference(lock);
      handles := handles - {t};
      if id in locks && locks[id] in strong && strong[locks[id]] == 1 {
        var last := locks[id];
        locks := locks - {id};
        DropReference(last);
      }
    }

    /** Clears away what requests that went away have left behind. */
    method Prune()
      requires Valid()
      modifies this
      ensures Valid() && Contents() == Pruned(old(Contents()))
      ensures forall id :: id in locks <==> id in old(locks) && !old(Contents()).Orphan(id)
    {
      PrunedValid(Contents());
      RetainReferenced();
    }

    method RetainReferenced()
      requires Contents().EntriesCounted() && Contents().EntriesDistinct()
      modifies this`locks, this`strong
      ensures Contents() == Pruned(old(Contents()))
    {
      ghost var was := Contents();
      ghost var stale: set<SessionId> := {};
      var rest := locks.Keys;
      ForgetNone(was);
      while rest != {}
        invariant rest <= was.locks.Keys
        invariant stale == Stale(was) - rest
        invariant locks == Forgotten(was, stale).locks && strong == Forgotten(was, stale).strong
      {
        var id :| id in rest;
        rest := rest - {id};
        ForgetOne(was, stale, id);
        if locks[id] in strong && strong[locks[id]] <= 1 {
          assert id in Stale(was);
          stale := stale + {id};
          var lock := locks[id];
          locks := locks - {id};
          DropReference(lock);
        }
      }
      assert stale == Stale(was);
    }
  }

  lemma SetTwice(m: map<Lock, nat>, lock: Lock, first: nat, second: nat)
    ensures m[lock := first][lock := second] == m[lock := second]
  {
  }

  lemma ForgetOne(tb: Table, gone: set<SessionId>, id: SessionId)
    requires tb.EntriesCounted() && tb.EntriesDistinct() && id in tb.locks && id !in gone
    ensures id in Forgotten(tb, gone).locks && tb.locks[id] in Forgotten(tb, gone).strong
    ensures Forgotten(tb, gone).strong[tb.locks[id]] == tb.strong[tb.locks[id]]
    ensures Forgotten(tb, gone + {id}) ==
      Table(Forgotten(tb, gone).locks - {id}, Forgotten(tb, gone).strong - {tb.locks[id]}, tb.handles)
  {
    var l := tb.locks[id];
    assert LocksOf(tb, gone + {id}) == LocksOf(tb, gone) + {l};
    assert l !in LocksOf(tb, gone);
    assert Forgotten(tb, gone + {id}).strong == Forgotten(tb, gone).strong - {l};
    assert Forgotten(tb, gone + {id}).locks == Forgotten(tb, gone).locks - {id};
  }
}
