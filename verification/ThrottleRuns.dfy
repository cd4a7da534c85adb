// What the throttle guarantees over whole runs of calls, for any number of identifiers.

/** How fast one identifier can be guessed at. */
module ThrottleRate {
  import opened Clock
  import opened Sets
  import opened Wrappers
  import opened Throttle

  /** A call. A settling call names which of its identifier's admitted attempts it is about. */
  datatype Event =
    | Try(key: Key, now: Time, a: Admission)
    | Settle(key: Key, outcome: Outcome, attempt: nat)
    | Sweep(now: Time)

  ghost predicate Next(m: Entries, e: Event, after: Entries) {
    match e
    case Try(key, now, a) => Admits(m, key, now, a, after)
    case Settle(key, outcome, _) => after == Settled(m, key, outcome)
    case Sweep(now) => after == Swept(m, now)
  }

  /** What an observer of identifier `key` has seen. */
  datatype Watch = Watch(
    log: seq<Time>,     // when each attempt was admitted
    live: set<nat>,     // those since the last reset that were not given back
    returned: set<nat>, // those given back
    clock: Time)

  const NOTHING_SEEN: Watch := Watch([], {}, {}, 0)

  /** An hour has passed since the last attempt, or there was none. */
  predicate HourPassed(w: Watch, now: Time) {
    w.log == [] || now >= w.log[|w.log| - 1] + 3600 * SECOND
  }

  function Seen(w: Watch, key: Key, e: Event): Watch {
    match e
    case Try(k, now, a) =>
      if k != key || a.Wait? then w.(clock := now)
      else
        var kept := if HourPassed(w, now) then {} else w.live;
        Watch(w.log + [now], kept + {|w.log|}, w.returned, now)
    case Settle(k, outcome, attempt) =>
      if k == key && outcome.NotAnAttempt? then w.(live := w.live - {attempt}, returned := w.returned + {attempt}) else w
    case Sweep(now) =>
      if HourPassed(w, now) then w.(live := {}, clock := now) else w.(clock := now)
  }

  /** The clock goes forward, `key` neither succeeds nor is evicted, and only what is counted is given back. */
  ghost predicate Undisturbed(w: Watch, key: Key, m: Entries, e: Event, after: Entries) {
    match e
    case Try(k, now, _) => w.clock <= now && (k != key && key in m ==> key in after)
    case Settle(k, outcome, attempt) => k == key ==> !outcome.Succeeded? && (outcome.NotAnAttempt? ==> attempt in w.live)
    case Sweep(now) => w.clock <= now
  }

  datatype Run = Run(states: seq<Entries>, events: seq<Event>, watches: seq<Watch>)
  {
    ghost predicate Step(key: Key, i: nat)
      requires i < |events| && |states| == |events| + 1 == |watches|
    {
      && Next(states[i], events[i], states[i + 1])
      && Undisturbed(watches[i], key, states[i], events[i], states[i + 1])
      && watches[i + 1] == Seen(watches[i], key, events[i])
    }

    ghost predicate Valid(key: Key) {
      && |states| == |events| + 1 == |watches|
      && states[0] == map[] && watches[0] == NOTHING_SEEN
      && forall i :: 0 <= i < |events| ==> Step(key, i)
    }
  }

  // ----- The bound

  /** The least time `n` attempts that count can take. */
  function MinSpan(n: nat): Duration {
    var short := if n <= FREE_ATTEMPTS then 0 else if n <= 10 then n - FREE_ATTEMPTS else SHORT_DELAY_ATTEMPTS;
    var long := if n <= 10 then 0 else n - 10;
    SHORT_DELAY * short + LONG_DELAY * long
  }

  lemma MinSpanGrows(n: nat)
    ensures n > 0 ==> MinSpan(n + 1) == MinSpan(n) + DelayAfter(n)
    ensures MinSpan(n) <= MinSpan(n + 1) && MinSpan(1) == 0
  {
  }

  lemma {:induction false} MinSpanMonotone(n: nat, more: nat)
    requires n <= more
    ensures MinSpan(n) <= MinSpan(more)
  {
    if n < more {
      MinSpanMonotone(n, more - 1);
      MinSpanGrows(more - 1);
    }
  }

  /** The attempts from `i` to `j` that were not given back. */
  function Counted(w: Watch, i: nat, j: nat): set<nat> {
    set x | i <= x <= j && x !in w.returned
  }

  ghost predicate Tracked(w: Watch, key: Key, m: Entries) {
    if key in m then
      w.log != [] && m[key].attempts == |w.live| > 0 && m[key].last == w.log[|w.log| - 1]
    else w.live == {}
  }

  ghost predicate Logged(w: Watch) {
    && (forall i, j :: 0 <= i <= j < |w.log| ==> w.log[i] <= w.log[j])
    && (forall i :: 0 <= i < |w.log| ==> w.log[i] <= w.clock)
    && (forall i :: i in w.live ==> i < |w.log| && i !in w.returned)
    && (forall i :: i in w.returned ==> i < |w.log|)
  }

  /** What counts yet is no longer in force is an hour old. */
  ghost predicate Aged(w: Watch) {
    forall i :: 0 <= i < |w.log| && i !in w.returned && i !in w.live ==> w.log[i] + FORGET_AFTER <= w.clock
  }

  ghost predicate SpanOk(w: Watch, i: nat, j: nat)
    requires i <= j < |w.log|
    requires w.log[i] <= w.log[j]
  {
    i !in w.returned && w.log[j] - w.log[i] < FORGET_AFTER ==> w.log[j] - w.log[i] >= MinSpan(|Counted(w, i, j)|)
  }

  ghost predicate Spaced(w: Watch)
    requires Logged(w)
  {
    forall i, j :: 0 <= i <= j < |w.log| ==> SpanOk(w, i, j)
  }

  ghost predicate Inv(w: Watch, key: Key, m: Entries) {
    Tracked(w, key, m) && Logged(w) && Aged(w) && Spaced(w)
  }

  lemma AdmittedIsSpaced(w: Watch, key: Key, m: Entries, now: Time, i: nat)
    requires Inv(w, key, m) && w.clock <= now
    requires Judged(m, key, now).Admitted?
    requires i < |w.log| && i !in w.returned && now - w.log[i] < FORGET_AFTER
    ensures InForce(m, key, now).Some?
    ensures now - w.log[i] >= MinSpan(|Counted(w, i, |w.log| - 1)| + 1)
  {
    var j := |w.log| - 1;
    var counted := Counted(w, i, j);
    assert i in w.live;
    assert counted <= w.live by {
      forall x | x in counted ensures x in w.live {
        assert w.log[i] <= w.log[x];
      }
    }
    SubsetSize(counted, w.live);
    assert i in counted;
    assert SpanOk(w, i, j);
    MinSpanGrows(|counted|);
    DelayMonotone(|counted|, m[key].attempts);
  }

  lemma DelayMonotone(a: nat, b: nat)
    requires a <= b
    ensures DelayAfter(a) <= DelayAfter(b)
  {
  }

  lemma NewestIsSpaced(w: Watch, key: Key, m: Entries, now: Time, after: Watch, i: nat)
    requires Inv(w, key, m) && w.clock <= now && Judged(m, key, now).Admitted?
    requires Logged(after) && after.log == w.log + [now] && after.returned == w.returned
    requires i < |w.log|
    ensures SpanOk(after, i, |w.log|)
  {
    var n := |w.log|;
    if i !in w.returned && now - w.log[i] < FORGET_AFTER {
      assert Counted(after, i, n) <= Counted(w, i, n - 1) + {n};
      SubsetSize(Counted(after, i, n), Counted(w, i, n - 1) + {n});
      AdmittedIsSpaced(w, key, m, now, i);
      MinSpanMonotone(|Counted(after, i, n)|, |Counted(w, i, n - 1)| + 1);
    }
  }

  lemma SpacedAfterAdmission(w: Watch, key: Key, m: Entries, now: Time, after: Watch)
    requires Inv(w, key, m) && w.clock <= now && Judged(m, key, now).Admitted?
    requires Logged(after) && after.log == w.log + [now] && after.returned == w.returned
    ensures Spaced(after)
  {
    var n := |w.log|;
    forall i, j | 0 <= i <= j < |after.log| ensures SpanOk(after, i, j) {
      if j < n {
        assert Counted(after, i, j) == Counted(w, i, j);
        assert SpanOk(w, i, j);
      } else if i < n {
        NewestIsSpaced(w, key, m, now, after, i);
      } else {
        SubsetSize(Counted(after, n, n), {n});
        MinSpanMonotone(|Counted(after, n, n)|, 1);
        MinSpanGrows(1);
      }
    }
  }

  lemma SpacedAfterReturn(w: Watch, after: Watch)
    requires Logged(w) && Logged(after) && Spaced(w) && after.log == w.log && w.returned <= after.returned
    ensures Spaced(after)
  {
    forall i, j | 0 <= i <= j < |after.log| ensures SpanOk(after, i, j) {
      assert SpanOk(w, i, j);
      SubsetSize(Counted(after, i, j), Counted(w, i, j));
      MinSpanMonotone(|Counted(after, i, j)|, |Counted(w, i, j)|);
    }
  }

  lemma TrackedKeptByTry(w: Watch, key: Key, m: Entries, e: Event, after: Entries)
    requires Inv(w, key, m) && Next(m, e, after) && Undisturbed(w, key, m, e, after) && e.Try?
    ensures Tracked(Seen(w, key, e), key, after)
  {
    if e.key != key {
      OthersLeaveEntry(m, key, e.key, e.now, e.a, after);
    } else if e.a.Admitted? {
      assert |w.log| !in w.live;
      assert after[key].last == e.now;
    }
  }

  lemma TrackedKeptBySettle(w: Watch, key: Key, m: Entries, e: Event, after: Entries)
    requires Inv(w, key, m) && Next(m, e, after) && Undisturbed(w, key, m, e, after) && e.Settle?
    ensures Tracked(Seen(w, key, e), key, after)
  {
    if e.key == key && e.outcome.NotAnAttempt? {
      assert e.attempt in w.live && key in m;
      assert |w.live - {e.attempt}| == |w.live| - 1;
    }
  }

  lemma TrackedKept(w: Watch, key: Key, m: Entries, e: Event, after: Entries)
    requires Inv(w, key, m) && Next(m, e, after) && Undisturbed(w, key, m, e, after)
    ensures Tracked(Seen(w, key, e), key, after)
  {
    match e
    case Try(_, _, _) => TrackedKeptByTry(w, key, m, e, after);
    case Settle(_, _, _) => TrackedKeptBySettle(w, key, m, e, after);
    case Sweep(_) =>
  }

  lemma LoggedKept(w: Watch, key: Key, m: Entries, e: Event, after: Entries)
    requires Logged(w) && Undisturbed(w, key, m, e, after)
    ensures Logged(Seen(w, key, e))
  {
  }

  /** Calls for other identifiers leave an entry as it is unless they evict it. */
  lemma OthersLeaveEntry(m: Entries, key: Key, other: Key, now: Time, a: Admission, after: Entries)
    requires other != key && Admits(m, other, now, a, after)
    requires key in m ==> key in after
    ensures key in after <==> key in m
    ensures key in m ==> after[key] == m[key]
  {
    if InForce(m, other, now).None? && |m| >= MAX_TRACKED {
      var kept :| Evicts(m, kept) && after == kept[other := Entry(1, now)];
      assert key in after ==> key in kept;
    }
  }

  lemma InvKept(w: Watch, key: Key, m: Entries, e: Event, after: Entries)
    requires Inv(w, key, m) && Next(m, e, after) && Undisturbed(w, key, m, e, after)
    ensures Inv(Seen(w, key, e), key, after)
  {
    var seen := Seen(w, key, e);
    TrackedKept(w, key, m, e, after);
    LoggedKept(w, key, m, e, after);
    if e.Try? && e.key == key && e.a.Admitted? {
      SpacedAfterAdmission(w, key, m, e.now, seen);
    } else {
      SpacedAfterReturn(w, seen);
    }
    AgedKept(w, key, m, e, after);
  }

  lemma AgedKept(w: Watch, key: Key, m: Entries, e: Event, after: Entries)
    requires Inv(w, key, m) && Next(m, e, after) && Undisturbed(w, key, m, e, after)
    ensures Aged(Seen(w, key, e))
  {
    if (e.Try? && e.key == key && e.a.Admitted? && HourPassed(w, e.now)) || (e.Sweep? && HourPassed(w, e.now)) {
      forall i | i in w.live ensures w.log[i] + FORGET_AFTER <= e.now {
        assert w.log[i] <= w.log[|w.log| - 1];
      }
    }
  }

  lemma {:induction false} RunInv(run: Run, key: Key, i: nat)
    requires run.Valid(key) && i < |run.states|
    ensures Inv(run.watches[i], key, run.states[i])
  {
    if i > 0 {
      RunInv(run, key, i - 1);
      assert run.Step(key, i - 1);
      InvKept(run.watches[i - 1], key, run.states[i - 1], run.events[i - 1], run.states[i]);
    }
  }

  /**
   * The guess-rate bound: the attempts of one identifier that count, from the `i`th to the `j`th and
   * less than an hour apart, take at least 30 seconds for each of the five after the first five and
   * 300 for each beyond, so at most 21 of them fit.
   */
  lemma GuessRate(run: Run, key: Key, i: nat, j: nat)
    requires run.Valid(key)
    requires var w := run.watches[|run.events|];
      i <= j < |w.log| && i !in w.returned && w.log[j] < w.log[i] + 3600 * SECOND
    ensures var w := run.watches[|run.events|];
      var n := |Counted(w, i, j)|;
      && w.log[j] - w.log[i] >= (if n <= 5 then 0 else if n <= 10 then 30 * (n - 5) else 150 + 300 * (n - 10)) * SECOND
      && n <= 21
  {
    RunInv(run, key, |run.events|);
    var w := run.watches[|run.events|];
    assert SpanOk(w, i, j);
    var n := |Counted(w, i, j)|;
    if n >= 22 {
      MinSpanMonotone(22, n);
    }
  }

  // ----- The count never overflows

  ghost predicate SlowEntry(m: Entries, k: Key, clock: Time) {
    k in m ==> m[k].last <= clock && m[k].attempts <= 10 + m[k].last / LONG_DELAY
  }

  ghost predicate Slow(m: Entries, clock: Time) {
    forall k :: SlowEntry(m, k, clock)
  }

  lemma SlowStep(attempts: nat, last: Time, now: Time)
    requires attempts <= 10 + last / LONG_DELAY && last + DelayAfter(attempts) <= now
    ensures attempts + 1 <= 10 + now / LONG_DELAY
  {
    if attempts >= 10 {
      assert (last + LONG_DELAY) / LONG_DELAY == last / LONG_DELAY + 1;
      DivMonotone(last + LONG_DELAY, now);
    }
  }

  lemma DivMonotone(a: nat, b: nat)
    requires a <= b
    ensures a / LONG_DELAY <= b / LONG_DELAY
  {
  }

  lemma SlowKept(m: Entries, clock: Time, e: Event, after: Entries, k: Key)
    requires SlowEntry(m, k, clock) && Next(m, e, after) && (!e.Settle? ==> clock <= e.now)
    ensures SlowEntry(after, k, if e.Settle? then clock else e.now)
  {
    match e
    case Try(key, now, a) =>
      if InForce(m, key, now).None? && |m| >= MAX_TRACKED {
        var kept :| Evicts(m, kept) && after == kept[key := Entry(1, now)];
        assert k in kept ==> kept[k] == m[k];
      } else if key == k && k in m && now >= m[k].WaitUntil() {
        SlowStep(m[k].attempts, m[k].last, now);
      }
    case Settle(_, _, _) =>
    case Sweep(_) =>
  }

  /** Any run of calls by a clock that goes forward, evictions and successes included. */
  ghost predicate IsRun(states: seq<Entries>, events: seq<Event>, clocks: seq<Time>) {
    && |states| == |events| + 1 == |clocks|
    && states[0] == map[]
    && forall i :: 0 <= i < |events| ==> IsStep(states, events, clocks, i)
  }

  ghost predicate IsStep(states: seq<Entries>, events: seq<Event>, clocks: seq<Time>, i: nat)
    requires i < |events| && |states| == |events| + 1 == |clocks|
  {
    && Next(states[i], events[i], states[i + 1])
    && clocks[i] <= clocks[i + 1]
    && (!events[i].Settle? ==> events[i].now == clocks[i + 1])
  }

  /**
   * The program counts attempts in 32 bits. Every attempt beyond the tenth takes 300 seconds, whatever
   * else happens, so the count stays in range for over forty thousand years.
   */
  lemma {:induction false} CountsStayInRange(
      states: seq<Entries>, events: seq<Event>, clocks: seq<Time>, i: nat, key: Key)
    requires IsRun(states, events, clocks) && i < |states|
    ensures key in states[i] ==> states[i][key].attempts <= 10 + clocks[i] / (300 * SECOND)
    ensures Slow(states[i], clocks[i])
    ensures |states[i]| <= 100_000
  {
    if i > 0 {
      CountsStayInRange(states, events, clocks, i - 1, key);
      var m, e, after := states[i - 1], events[i - 1], states[i];
      assert IsStep(states, events, clocks, i - 1);
      forall k ensures SlowEntry(after, k, clocks[i]) {
        assert SlowEntry(m, k, clocks[i - 1]);
        SlowKept(m, clocks[i - 1], e, after, k);
      }
      match e
      case Try(k, now, a) => CapKept(m, k, now, a, after);
      case Settle(k, outcome, _) => OtherCallsShrink(m, k, outcome, 0);
      case Sweep(now) => OtherCallsShrink(m, 0, Failed, now);
    }
    assert SlowEntry(states[i], key, clocks[i]);
    if key in states[i] {
      DivMonotone(states[i][key].last, clocks[i]);
    }
  }

  // ----- A refused attempt is admitted when its wait is over

  /** What the entry of `key` may become without an admitted attempt: gone, or with fewer counted. */
  ghost predicate NoStricter(was: Entry, m: Entries, key: Key) {
    key in m ==> m[key].last == was.last && m[key].attempts <= was.attempts
  }

  lemma NoStricterKept(was: Entry, m: Entries, e: Event, after: Entries, key: Key)
    requires NoStricter(was, m, key) && Next(m, e, after)
    requires !(e.Try? && e.key == key && e.a.Admitted?)
    ensures NoStricter(was, after, key)
  {
    if e.Try? && InForce(m, e.key, e.now).None? && |m| >= MAX_TRACKED {
      var kept :| Evicts(m, kept) && after == kept[e.key := Entry(1, e.now)];
    }
  }

  lemma {:induction false} NoStricterSince(
      states: seq<Entries>, events: seq<Event>, clocks: seq<Time>, i: nat, j: nat, key: Key)
    requires IsRun(states, events, clocks) && i <= j < |states| && key in states[i]
    requires forall k :: i <= k < j ==> !(events[k].Try? && events[k].key == key && events[k].a.Admitted?)
    ensures NoStricter(states[i][key], states[j], key)
  {
    if j > i {
      NoStricterSince(states, events, clocks, i, j - 1, key);
      assert IsStep(states, events, clocks, j - 1);
      NoStricterKept(states[i][key], states[j - 1], events[j - 1], states[j], key);
    }
  }

  /**
   * A refusal names a wait of at most 300 seconds, and an attempt once it is over is admitted, whatever
   * happened meanwhile short of another admitted attempt.
   */
  lemma WaitIsHonest(
      states: seq<Entries>, events: seq<Event>, clocks: seq<Time>, i: nat, j: nat)
    requires IsRun(states, events, clocks) && i < j < |events|
    requires events[i].Try? && events[i].a.Wait? && events[j].Try? && events[j].key == events[i].key
    requires forall k :: i <= k < j ==> !(events[k].Try? && events[k].key == events[i].key && events[k].a.Admitted?)
    ensures 0 < events[i].a.remaining <= 300 * SECOND
    ensures events[j].now >= events[i].now + events[i].a.remaining ==> events[j].a.Admitted?
  {
    var key := events[i].key;
    assert IsStep(states, events, clocks, i) && IsStep(states, events, clocks, j);
    CountsStayInRange(states, events, clocks, i, key);
    assert SlowEntry(states[i], key, clocks[i]);
    NoStricterSince(states, events, clocks, i, j, key);
    if key in states[j] {
      DelayMonotone(states[j][key].attempts, states[i][key].attempts);
    }
  }

  // ----- Who is admitted, from what was observed

  /** How many of an identifier's attempts count, and when the last was admitted. */
  datatype Tally = Tally(count: nat, last: Time)

  /** An attempt within an hour of the last adds to the count, a later one starts it; `evicted` starts it too. */
  function Tallied(c: Tally, key: Key, e: Event, evicted: bool): Tally {
    match e
    case Try(k, now, a) =>
      if k != key then (if evicted then Tally(0, c.last) else c)
      else if a.Wait? then c
      else Tally(if c.count > 0 && now < c.last + 3600 * SECOND then c.count + 1 else 1, now)
    case Sweep(_) => c
    case Settle(k, outcome, _) =>
      if k != key || outcome.Failed? then c
      else if outcome.Succeeded? then Tally(0, c.last)
      else Tally(if c.count == 0 then 0 else c.count - 1, c.last)
  }

  /** An attempt for another identifier made room by forgetting this one. */
  predicate EvictedBy(m: Entries, e: Event, after: Entries, key: Key) {
    e.Try? && e.key != key && key in m && key !in after
  }

  function TallyAt(states: seq<Entries>, events: seq<Event>, key: Key, i: nat): Tally
    requires i <= |events| < |states|
  {
    if i == 0 then Tally(0, 0)
    else Tallied(TallyAt(states, events, key, i - 1), key, events[i - 1], EvictedBy(states[i - 1], events[i - 1], states[i], key))
  }

  /** The entry says what the tally does, and is missing only when the tally no longer matters. */
  ghost predicate InTally(c: Tally, m: Entries, key: Key, clock: Time) {
    && c.last <= clock
    && if key in m then m[key].attempts == c.count > 0 && m[key].last == c.last
       else c.count == 0 || clock >= c.last + 3600 * SECOND
  }

  lemma InTallyKept(c: Tally, m: Entries, e: Event, after: Entries, key: Key, clock: Time, later: Time)
    requires InTally(c, m, key, clock) && Next(m, e, after) && clock <= later && (!e.Settle? ==> e.now == later)
    ensures InTally(Tallied(c, key, e, EvictedBy(m, e, after, key)), after, key, later)
  {
    if e.Try? && e.key != key {
      if InForce(m, e.key, e.now).None? && |m| >= MAX_TRACKED {
        var kept :| Evicts(m, kept) && after == kept[e.key := Entry(1, e.now)];
        assert key in after ==> key in kept;
      }
    } else if e.Try? {
      if InForce(m, key, e.now).None? && |m| >= MAX_TRACKED {
        var kept :| Evicts(m, kept) && after == kept[key := Entry(1, e.now)];
      }
    }
  }

  lemma {:induction false} TallyHolds(states: seq<Entries>, events: seq<Event>, clocks: seq<Time>, i: nat, key: Key)
    requires IsRun(states, events, clocks) && i < |states|
    ensures InTally(TallyAt(states, events, key, i), states[i], key, clocks[i])
  {
    if i > 0 {
      TallyHolds(states, events, clocks, i - 1, key);
      assert IsStep(states, events, clocks, i - 1);
      InTallyKept(TallyAt(states, events, key, i - 1), states[i - 1], events[i - 1], states[i], key, clocks[i - 1], clocks[i]);
    }
  }

  /**
   * Who has to wait: in every run an attempt is refused exactly when five or more count, the last of them
   * under an hour old, and half a minute (five minutes from ten on) has not passed since; it is told the
   * rest. With fewer than five it is always admitted.
   */
  lemma RefusedIff(states: seq<Entries>, events: seq<Event>, clocks: seq<Time>, i: nat)
    requires IsRun(states, events, clocks) && i < |events| && events[i].Try?
    ensures var c, now := TallyAt(states, events, events[i].key, i), events[i].now;
      var wait := if c.count < 10 then 30 * SECOND else 300 * SECOND;
      && (events[i].a.Wait? <==> c.count >= 5 && now < c.last + 3600 * SECOND && now < c.last + wait)
      && (events[i].a.Wait? ==> events[i].a.remaining == c.last + wait - now)
  {
    TallyHolds(states, events, clocks, i, events[i].key);
    assert IsStep(states, events, clocks, i);
  }
}

/** Sweeping is invisible. */
module ThrottleSweeping {
  import opened Clock
  import opened Throttle

  datatype Call =
    | Attempt(key: Key, now: Time)
    | Conclude(key: Key, outcome: Outcome)
    | Clean(now: Time)

  /** The entries after a call that evicts nothing. */
  function After(m: Entries, call: Call): Entries {
    match call
    case Attempt(key, now) => Tried(m, key, now)
    case Conclude(key, outcome) => Settled(m, key, outcome)
    case Clean(now) => Swept(m, now)
  }

  /** The answers to the attempts among `calls`, in order. */
  function Answers(m: Entries, calls: seq<Call>): seq<Admission>
    decreases calls
  {
    if calls == [] then []
    else
      (if calls[0].Attempt? then [Judged(m, calls[0].key, calls[0].now)] else [])
      + Answers(After(m, calls[0]), calls[1..])
  }

  function WithoutSweeps(calls: seq<Call>): seq<Call> {
    if calls == [] then []
    else if calls[0].Clean? then WithoutSweeps(calls[1..])
    else [calls[0]] + WithoutSweeps(calls[1..])
  }

  /** Nothing is evicted: every attempt finds the map below its cap. */
  ghost predicate BelowCap(m: Entries, calls: seq<Call>)
    decreases calls
  {
    calls == [] || ((calls[0].Attempt? ==> |m| < MAX_TRACKED) && BelowCap(After(m, calls[0]), calls[1..]))
  }

  ghost predicate Forward(clock: Time, calls: seq<Call>)
    decreases calls
  {
    calls == [] ||
    (if calls[0].Conclude? then Forward(clock, calls[1..])
     else clock <= calls[0].now && Forward(calls[0].now, calls[1..]))
  }

  /** `swept` lacks only entries of `m` that no call from `clock` on finds in force. */
  ghost predicate Agree(m: Entries, swept: Entries, clock: Time) {
    && swept.Keys <= m.Keys
    && (forall k :: k in swept ==> swept[k] == m[k])
    && (forall k :: k in m && k !in swept ==> m[k].Expired(clock))
  }

  lemma AgreeKept(m: Entries, swept: Entries, clock: Time, call: Call)
    requires Agree(m, swept, clock) && (!call.Conclude? ==> clock <= call.now)
    ensures call.Attempt? ==> Judged(m, call.key, call.now) == Judged(swept, call.key, call.now)
    ensures Agree(After(m, call), After(swept, call), if call.Conclude? then clock else call.now)
  {
  }

  lemma AgreeAfterSweep(m: Entries, swept: Entries, clock: Time, now: Time)
    requires Agree(m, swept, clock) && clock <= now
    ensures Agree(m, Swept(swept, now), now)
  {
  }

  /** Below the cap, what the program does is what `After` says, with the answer `Judged` gives. */
  lemma BelowCapIsDetermined(m: Entries, key: Key, now: Time, a: Admission, after: Entries)
    requires |m| < MAX_TRACKED
    ensures Admits(m, key, now, a, after) <==> a == Judged(m, key, now) && after == After(m, Attempt(key, now))
  {
  }

  /**
   * As long as the map would stay below its cap without sweeps, it does with them, and a run of calls
   * with sweeps anywhere in it gives every attempt the answer the run without them gives.
   */
  lemma {:induction false} SweepsAreInvisible(m: Entries, swept: Entries, clock: Time, calls: seq<Call>)
    requires Agree(m, swept, clock) && Forward(clock, calls)
    requires BelowCap(m, WithoutSweeps(calls))
    ensures Answers(swept, calls) == Answers(m, WithoutSweeps(calls))
    ensures BelowCap(swept, calls)
    decreases calls
  {
    if calls != [] {
      var call, rest := calls[0], calls[1..];
      if call.Clean? {
        AgreeAfterSweep(m, swept, clock, call.now);
        SweepsAreInvisible(m, Swept(swept, call.now), call.now, rest);
      } else {
        assert WithoutSweeps(calls)[0] == call && WithoutSweeps(calls)[1..] == WithoutSweeps(rest);
        AgreeKept(m, swept, clock, call);
        Smaller(m, swept);
        SweepsAreInvisible(After(m, call), After(swept, call), if call.Conclude? then clock else call.now, rest);
      }
    }
  }
}
