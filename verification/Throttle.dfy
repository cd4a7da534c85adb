// Slowing down whoever guesses at one identifier, without locking its owner out.

/** The throttle's entries as a value, and what each call makes of them. */
module Throttle {
  import opened Clock
  import opened Wrappers
  import opened Sets

  type Key = nat

  /** So many attempts cost nothing. */
  const FREE_ATTEMPTS: nat := 5
  /** So many more are half a minute apart, and all others five minutes. */
  const SHORT_DELAY_ATTEMPTS: nat := 5
  const SHORT_DELAY: Duration := 30 * SECOND
  const LONG_DELAY: Duration := 300 * SECOND
  /** An entry left alone for an hour no longer counts. */
  const FORGET_AFTER: Duration := 3600 * SECOND
  /** The map never grows beyond this. */
  const MAX_TRACKED: nat := 100_000
  const EVICTION_BATCH: nat := MAX_TRACKED / 10

  datatype Admission = Admitted | Wait(remaining: Duration)

  datatype Outcome = Failed | Succeeded | NotAnAttempt

  function DelayAfter(attempts: nat): Duration {
    if attempts < FREE_ATTEMPTS then 0
    else if attempts < FREE_ATTEMPTS + SHORT_DELAY_ATTEMPTS then SHORT_DELAY
    else LONG_DELAY
  }

  datatype Entry = Entry(attempts: nat, last: Time) {
    function WaitUntil(): Time {
      last + DelayAfter(attempts)
    }

    predicate Expired(now: Time) {
      now >= last + FORGET_AFTER
    }

    predicate Delayed() {
      attempts >= FREE_ATTEMPTS
    }

    /** Evicted no later than `other`: undelayed entries first, and the oldest of those. */
    predicate RanksBelow(other: Entry) {
      if Delayed() == other.Delayed() then last <= other.last else !Delayed()
    }
  }

  type Entries = map<Key, Entry>

  /** The entry a call for `key` at `now` finds in force. */
  function InForce(m: Entries, key: Key, now: Time): Option<Entry> {
    if key in m && !m[key].Expired(now) then Some(m[key]) else None
  }

  function Judged(m: Entries, key: Key, now: Time): Admission {
    match InForce(m, key, now)
    case Some(entry) => if now < entry.WaitUntil() then Wait(entry.WaitUntil() - now) else Admitted
    case None => Admitted
  }

  /** The entries after a call for `key` at `now` that evicts nothing. */
  function Tried(m: Entries, key: Key, now: Time): Entries {
    match InForce(m, key, now)
    case Some(entry) => if now < entry.WaitUntil() then m else m[key := Entry(entry.attempts + 1, now)]
    case None => m[key := Entry(1, now)]
  }

  /** A batch is gone, and nothing in it ranks above what is kept. */
  ghost predicate Evicts(m: Entries, kept: Entries) {
    && kept.Keys <= m.Keys
    && (forall k :: k in kept ==> kept[k] == m[k])
    && |kept| + (if |m| < EVICTION_BATCH then |m| else EVICTION_BATCH) == |m|
    && (forall g, k :: g in m && g !in kept && k in kept ==> m[g].RanksBelow(m[k]))
  }

  /** What `admit` may do: it evicts only for an identifier not in force, and only at the cap. */
  ghost predicate Admits(m: Entries, key: Key, now: Time, a: Admission, after: Entries) {
    && a == Judged(m, key, now)
    && if InForce(m, key, now).None? && |m| >= MAX_TRACKED
       then exists kept :: Evicts(m, kept) && after == kept[key := Entry(1, now)]
       else after == Tried(m, key, now)
  }

  function Settled(m: Entries, key: Key, outcome: Outcome): Entries {
    match outcome
    case Failed => m
    case Succeeded => m - {key}
    case NotAnAttempt =>
      if key !in m then m
      else if m[key].attempts <= 1 then m - {key}
      else m[key := Entry(m[key].attempts - 1, m[key].last)]
  }

  function Swept(m: Entries, now: Time): Entries {
    map k | k in m && !m[k].Expired(now) :: m[k]
  }

  /** An identifier with five attempts goes only when none with fewer is kept, and among equals the oldest goes first. */
  lemma DelayedEvictedLast(m: Entries, kept: Entries, gone: Key, stays: Key)
    requires Evicts(m, kept)
    requires gone in m && gone !in kept && stays in kept
    ensures m[gone].attempts >= 5 ==> m[stays].attempts >= 5
    ensures (m[gone].attempts >= 5 <==> m[stays].attempts >= 5) ==> m[gone].last <= m[stays].last
  {
    assert m[gone].RanksBelow(m[stays]);
  }

  /** A batch is ten thousand entries, or all of fewer. */
  lemma BatchSize(m: Entries, kept: Entries)
    requires Evicts(m, kept)
    ensures |kept| == if |m| < 10_000 then 0 else |m| - 10_000
  {
  }

  /** An attempt touches no other identifier, unless it is for a new one and the map is full. */
  lemma OthersUntouched(m: Entries, key: Key, now: Time, a: Admission, after: Entries, other: Key)
    requires Admits(m, key, now, a, after) && other != key
    requires |m| < 100_000 || (key in m && now < m[key].last + 3600 * SECOND)
    ensures (other in after <==> other in m) && (other in m ==> after[other] == m[other])
  {
  }

  /** A sweep leaves exactly the entries of the last hour, as they are. */
  lemma SweptAre(m: Entries, now: Time, key: Key)
    ensures key in Swept(m, now) <==> key in m && now < m[key].last + 3600 * SECOND
    ensures key in Swept(m, now) ==> Swept(m, now)[key] == m[key]
  {
  }

  lemma SizeAfterPut(m: Entries, key: Key, entry: Entry)
    ensures |m[key := entry]| == |m| + if key in m then 0 else 1
  {
    if key in m {
      assert m[key := entry].Keys == m.Keys;
    } else {
      assert m[key := entry].Keys == m.Keys + {key};
    }
    assert |m.Keys| == |m| && |m[key := entry].Keys| == |m[key := entry]|;
  }

  /** No call takes the map beyond its cap. */
  lemma CapKept(m: Entries, key: Key, now: Time, a: Admission, after: Entries)
    requires |m| <= 100_000 && Admits(m, key, now, a, after)
    ensures |after| <= 100_000
    ensures a.Admitted? ==> key in after && after[key].last == now
  {
    if InForce(m, key, now).None? && |m| >= MAX_TRACKED {
      var kept :| Evicts(m, kept) && after == kept[key := Entry(1, now)];
      SizeAfterPut(kept, key, Entry(1, now));
    } else {
      if key in after {
        SizeAfterPut(m, key, after[key]);
      }
    }
  }

  lemma OtherCallsShrink(m: Entries, key: Key, outcome: Outcome, now: Time)
    ensures |Settled(m, key, outcome)| <= |m| && Settled(m, key, outcome).Keys <= m.Keys
    ensures |Swept(m, now)| <= |m| && Swept(m, now).Keys <= m.Keys
  {
    Smaller(m, Settled(m, key, outcome));
    Smaller(m, Swept(m, now));
  }

  lemma Smaller(m: Entries, n: Entries)
    requires n.Keys <= m.Keys
    ensures |n| <= |m|
  {
    assert |n.Keys| == |n| && |m.Keys| == |m|;
    SubsetSize(n.Keys, m.Keys);
  }
}

/** The throttle as the program keeps it. */
module LoginThrottle {
  import opened Clock
  import opened Throttle

  datatype Ranked = Ranked(entry: Entry, key: Key)

  ghost predicate DistinctKeys(xs: seq<Ranked>) {
    forall i, j :: 0 <= i < j < |xs| ==> xs[i].key != xs[j].key
  }

  lemma {:induction false} CountDistinct(xs: seq<Ranked>, x: Ranked)
    requires DistinctKeys(xs)
    ensures multiset(xs)[x] <= 1
  {
    if xs != [] {
      assert xs == [xs[0]] + xs[1..];
      CountDistinct(xs[1..], x);
    }
  }

  lemma TwoCopies(ys: seq<Ranked>, i: nat, j: nat)
    requires i < j < |ys| && ys[i] == ys[j]
    ensures multiset(ys)[ys[i]] >= 2
  {
    assert ys == ys[..j] + ys[j..];
    assert ys[..j][i] == ys[j..][0];
  }

  /** Moves the `n` lowest ranked to the front, in place. */
  method SelectLowest(a: array<Ranked>, n: nat)
    requires n <= a.Length
    modifies a
    ensures multiset(a[..]) == multiset(old(a[..]))
    ensures forall i, j :: 0 <= i < n <= j < a.Length ==> a[i].entry.RanksBelow(a[j].entry)
  {
    for k := 0 to n
      invariant multiset(a[..]) == multiset(old(a[..]))
      invariant forall i, j :: 0 <= i < k <= j < a.Length ==> a[i].entry.RanksBelow(a[j].entry)
    {
      var low := k;
      for j := k + 1 to a.Length
        invariant k <= low < a.Length
        invariant forall i :: k <= i < j ==> a[low].entry.RanksBelow(a[i].entry)
      {
        if a[j].entry.RanksBelow(a[low].entry) {
          low := j;
        }
      }
      a[k], a[low] := a[low], a[k];
    }
  }

  /** `xs` lists each entry of `m` once. */
  ghost predicate Lists(m: Entries, xs: seq<Ranked>) {
    && DistinctKeys(xs)
    && (forall x :: x in xs <==> x.key in m && m[x.key] == x.entry)
  }

  lemma ReorderedLists(m: Entries, xs: seq<Ranked>, ys: seq<Ranked>)
    requires Lists(m, xs) && multiset(xs) == multiset(ys)
    ensures Lists(m, ys)
  {
    forall x ensures x in ys <==> x in xs {
      assert x in multiset(xs) <==> x in multiset(ys);
    }
    forall i, j | 0 <= i < j < |ys| ensures ys[i].key != ys[j].key {
      if ys[i].key == ys[j].key {
        assert ys[i] in ys && ys[j] in ys;
        CountDistinct(xs, ys[i]);
        TwoCopies(ys, i, j);
      }
    }
  }

  lemma {:induction false} ListsAll(m: Entries, xs: seq<Ranked>)
    requires Lists(m, xs)
    ensures |xs| == |m|
  {
    assert forall k :: k in m ==> Ranked(m[k], k) in xs;
    if xs != [] {
      var x, rest := xs[0], m - {xs[0].key};
      ListsRest(m, xs);
      ListsAll(rest, xs[1..]);
      assert rest.Keys + {x.key} == m.Keys;
      assert |rest.Keys| == |rest| && |m.Keys| == |m|;
    } else {
      assert m.Keys == {};
    }
  }

  lemma ListsRest(m: Entries, xs: seq<Ranked>)
    requires Lists(m, xs) && xs != []
    ensures xs[0].key in m && Lists(m - {xs[0].key}, xs[1..])
  {
    var rest, tail := m - {xs[0].key}, xs[1..];
    assert xs[0] in xs;
    forall x ensures x in tail <==> x.key in rest && rest[x.key] == x.entry {
      assert xs == [xs[0]] + tail;
      if x in tail {
        var i :| 0 <= i < |tail| && tail[i] == x;
        assert xs[i + 1] == x && x in xs;
      }
      if x.key in rest && rest[x.key] == x.entry {
        assert x in xs && x != xs[0];
      }
    }
  }

  function KeysOf(xs: seq<Ranked>): set<Key> {
    set i | 0 <= i < |xs| :: xs[i].key
  }

  lemma KeysOfPush(xs: seq<Ranked>, i: nat)
    requires i < |xs|
    ensures KeysOf(xs[..i + 1]) == KeysOf(xs[..i]) + {xs[i].key}
  {
    var more := xs[..i + 1];
    forall k | k in KeysOf(xs[..i]) + {xs[i].key} ensures k in KeysOf(more) {
      if k == xs[i].key {
        assert more[i].key == k;
      } else {
        var j :| 0 <= j < i && xs[..i][j].key == k;
        assert more[j].key == k;
      }
    }
    forall k | k in KeysOf(more) ensures k in KeysOf(xs[..i]) + {xs[i].key} {
      var j :| 0 <= j <= i && more[j].key == k;
      assert j < i ==> xs[..i][j].key == k;
    }
  }

  lemma WithoutFirst(m: Entries, xs: seq<Ranked>, n: nat)
    requires Lists(m, xs) && n <= |xs|
    ensures Lists(m - KeysOf(xs[..n]), xs[n..])
  {
    var rest := m - KeysOf(xs[..n]);
    forall x ensures x in xs[n..] <==> x.key in rest && rest[x.key] == x.entry {
      if x in xs[n..] {
        var j :| n <= j < |xs| && xs[j] == x;
        assert x in xs;
        forall i | 0 <= i < n ensures xs[..n][i].key != x.key {
          assert xs[i].key != xs[j].key;
        }
      }
    }
  }

  lemma LowestEvicted(m: Entries, xs: seq<Ranked>, batch: nat)
    requires Lists(m, xs) && batch == if |m| < EVICTION_BATCH then |m| else EVICTION_BATCH
    requires batch <= |xs|
    requires forall i, j :: 0 <= i < batch <= j < |xs| ==> xs[i].entry.RanksBelow(xs[j].entry)
    ensures Evicts(m, m - KeysOf(xs[..batch]))
  {
    var kept := m - KeysOf(xs[..batch]);
    ListsAll(m, xs);
    WithoutFirst(m, xs, batch);
    ListsAll(kept, xs[batch..]);
    forall g, k | g in m && g !in kept && k in kept ensures m[g].RanksBelow(m[k]) {
      assert Ranked(kept[k], k) in xs[batch..];
      var i :| 0 <= i < batch && xs[..batch][i].key == g;
      assert xs[i] in xs;
    }
  }

  class LoginThrottle {
    var entries: Entries

    constructor ()
      ensures entries == map[]
    {
      entries := map[];
    }

    method Rank() returns (ranked: array<Ranked>)
      ensures fresh(ranked) && Lists(entries, ranked[..])
    {
      var listed: seq<Ranked> := [];
      var rest := entries.Keys;
      while rest != {}
        invariant rest <= entries.Keys
        invariant DistinctKeys(listed)
        invariant forall x :: x in listed <==> x.key in entries && x.key !in rest && entries[x.key] == x.entry
      {
        var key :| key in rest;
        rest := rest - {key};
        listed := listed + [Ranked(entries[key], key)];
      }
      ranked := new Ranked[|listed|](i requires 0 <= i < |listed| => listed[i]);
      assert ranked[..] == listed;
    }

    method LowestRanked() returns (lowest: seq<Ranked>)
      ensures Evicts(entries, entries - KeysOf(lowest))
    {
      var ranked := Rank();
      var batch := if ranked.Length < EVICTION_BATCH then ranked.Length else EVICTION_BATCH;
      ghost var listed := ranked[..];
      ListsAll(entries, listed);
      SelectLowest(ranked, batch);
      ReorderedLists(entries, listed, ranked[..]);
      LowestEvicted(entries, ranked[..], batch);
      lowest := ranked[..batch];
      assert ranked[..][..batch] == lowest;
    }

    /** Makes room by one batch; called when there is something to free. */
    method Evict()
      requires entries != map[]
      modifies this
      ensures Evicts(old(entries), entries)
    {
      var lowest := LowestRanked();
      RemoveEach(lowest);
    }

    method RemoveEach(lowest: seq<Ranked>)
      modifies this
      ensures entries == old(entries) - KeysOf(lowest)
    {
      for i := 0 to |lowest|
        invariant entries == old(entries) - KeysOf(lowest[..i])
      {
        KeysOfPush(lowest, i);
        entries := entries - {lowest[i].key};
      }
      assert lowest[..|lowest|] == lowest;
    }

    /** Lets an attempt through and counts it, or says how long to wait. */
    method Admit(key: Key, now: Time) returns (a: Admission)
      modifies this
      ensures Admits(old(entries), key, now, a, entries)
    {
      if key in entries && now < entries[key].last + FORGET_AFTER {
        var entry := entries[key];
        var waitUntil := entry.WaitUntil();
        if now < waitUntil {
          return Wait(waitUntil - now);
        }
        entries := entries[key := Entry(entry.attempts + 1, now)];
        return Admitted;
      }
      if |entries| >= MAX_TRACKED {
        Evict();
      }
      ghost var kept := entries;
      entries := entries[key := Entry(1, now)];
      assert |old(entries)| >= MAX_TRACKED ==> Evicts(old(entries), kept);
      return Admitted;
    }

    method Settle(key: Key, outcome: Outcome)
      modifies this
      ensures entries == Settled(old(entries), key, outcome)
    {
      match outcome
      case Failed =>
      case Succeeded => entries := entries - {key};
      case NotAnAttempt =>
        if key in entries {
          var attempts := if entries[key].attempts > 0 then entries[key].attempts - 1 else 0;
          entries := entries[key := Entry(attempts, entries[key].last)];
          if attempts == 0 {
            entries := entries - {key};
            assert entries == old(entries) - {key};
          }
        }
    }

    /** What `Expired` describes goes. */
    method Sweep(now: Time)
      modifies this
      ensures entries == Swept(old(entries), now)
    {
      var kept: Entries := map[];
      var rest := entries.Keys;
      while rest != {}
        invariant rest <= entries.Keys && entries == old(entries)
        invariant kept == map k | k in entries && k !in rest && !entries[k].Expired(now) :: entries[k]
      {
        var key :| key in rest;
        rest := rest - {key};
        if now < entries[key].last + FORGET_AFTER {
          kept := kept[key := entries[key]];
        }
      }
      entries := kept;
    }
  }
}
