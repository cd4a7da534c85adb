// The cache of Hydra's signing keys: single-flight, throttled, and tolerant of short outages.

module Jwks {
  import opened Clock
  import opened Wrappers

  type Kid = nat

  datatype JwksError =
    | FetchFailed(cause: nat)
    | UnknownKey(kid: Kid)
    | Throttled

  /** The kids of a key set Hydra published, and when the fetch that brought it was done. */
  datatype Fetched = Fetched(kids: set<Kid>, at: Time)

  datatype Cached = Cached(keys: Option<Fetched>, lastAttempt: Option<Time>)

  const EMPTY: Cached := Cached(None, None)

  datatype Config = Config(minRefresh: Duration, maxAge: Duration)

  /** What a fetch comes to; the request may also go away during it. */
  datatype Fetch = Got(kids: set<Kid>) | Broke(cause: nat) | Gone

  /**
   * One call of `keys_for`, holding the cache's lock from its first clock read to its last:
   * the reads of the age, of the age again, of the last attempt, at the fetch's start and its end.
   */
  datatype Call = Call(
    kid: Option<Kid>,
    examined: Time, aged: Time, checked: Time, started: Time, finished: Time,
    fetch: Fetch)
  {
    predicate InOrder() {
      examined <= aged <= checked <= started <= finished
    }
  }

  datatype Answer = Keys(kids: set<Kid>) | Error(error: JwksError) | NoAnswer

  predicate YoungerThan(fetched: Fetched, now: Time, age: Duration) {
    now < fetched.at + age
  }

  predicate Holds(kids: set<Kid>, kid: Option<Kid>) {
    kid.Some? ==> kid.value in kids
  }

  predicate ServedFromCache(cfg: Config, c: Cached, call: Call) {
    c.keys.Some? && YoungerThan(c.keys.value, call.examined, cfg.maxAge) && Holds(c.keys.value.kids, call.kid)
  }

  /** Older keys that serve when no fetch can be made: only for a kid they hold, up to twice the age. */
  function Stale(cfg: Config, c: Cached, call: Call): Option<set<Kid>> {
    if c.keys.Some? && call.kid.Some? && call.kid.value in c.keys.value.kids
       && YoungerThan(c.keys.value, call.aged, 2 * cfg.maxAge)
    then Some(c.keys.value.kids)
    else None
  }

  function StaleOr(stale: Option<set<Kid>>, error: JwksError): Answer {
    if stale.Some? then Keys(stale.value) else Error(error)
  }

  predicate TooSoon(cfg: Config, c: Cached, call: Call) {
    c.lastAttempt.Some? && call.checked < c.lastAttempt.value + cfg.minRefresh
  }

  predicate Fetches(cfg: Config, c: Cached, call: Call) {
    !ServedFromCache(cfg, c, call) && !TooSoon(cfg, c, call)
  }

  function After(cfg: Config, c: Cached, call: Call): Cached {
    if !Fetches(cfg, c, call) then c
    else Cached(if call.fetch.Got? then Some(Fetched(call.fetch.kids, call.finished)) else c.keys, Some(call.started))
  }

  function Answered(cfg: Config, c: Cached, call: Call): Answer {
    if ServedFromCache(cfg, c, call) then Keys(c.keys.value.kids)
    else if TooSoon(cfg, c, call) then StaleOr(Stale(cfg, c, call), Throttled)
    else match call.fetch
      case Got(kids) => if Holds(kids, call.kid) then Keys(kids) else Error(UnknownKey(call.kid.value))
      case Broke(cause) => StaleOr(Stale(cfg, c, call), FetchFailed(cause))
      case Gone => NoAnswer
  }

  class JwksCache {
    const cfg: Config
    var keys: Option<Fetched>
    var lastAttempt: Option<Time>

    function Contents(): Cached
      reads this
    {
      Cached(keys, lastAttempt)
    }

    constructor (cfg: Config)
      ensures this.cfg == cfg && Contents() == EMPTY
    {
      this.cfg := cfg;
      keys, lastAttempt := None, None;
    }

    /** `call` supplies the clock reads and what the fetch, if there is one, comes to. */
    method KeysFor(call: Call) returns (answer: Answer)
      modifies this
      ensures Contents() == After(cfg, old(Contents()), call)
      ensures answer == Answered(cfg, old(Contents()), call)
    {
      if keys.Some? && call.examined < keys.value.at + cfg.maxAge
         && (call.kid.None? || call.kid.value in keys.value.kids)
      {
        return Keys(keys.value.kids);
      }
      var stale := None;
      if keys.Some? && call.kid.Some? && call.kid.value in keys.value.kids
         && call.aged < keys.value.at + 2 * cfg.maxAge
      {
        stale := Some(keys.value.kids);
      }
      if lastAttempt.Some? && call.checked < lastAttempt.value + cfg.minRefresh {
        return StaleOr(stale, Throttled);
      }
      lastAttempt := Some(call.started);
      match call.fetch
      case Gone =>
        return NoAnswer;
      case Broke(cause) =>
        return StaleOr(stale, FetchFailed(cause));
      case Got(kids) =>
        keys := Some(Fetched(kids, call.finished));
        if call.kid.Some? && call.kid.value !in kids {
          return Error(UnknownKey(call.kid.value));
        }
        return Keys(kids);
    }
  }

  // ----- Whole runs

  /** The cache between the calls of a run; `published(t)` is the key set Hydra serves at `t`. */
  ghost predicate IsRun(cfg: Config, cs: seq<Cached>, calls: seq<Call>, published: Time -> set<Kid>, longest: Duration) {
    && |cs| == |calls| + 1 && cs[0] == EMPTY
    && forall i :: 0 <= i < |calls| ==> IsGenuineStep(cfg, cs, calls, published, longest, i)
  }

  ghost predicate IsGenuineStep(
      cfg: Config, cs: seq<Cached>, calls: seq<Call>, published: Time -> set<Kid>, longest: Duration, i: nat)
    requires i < |calls| < |cs|
  {
    IsStep(cfg, cs, calls, i) && Genuine(calls[i], published, longest)
  }

  ghost predicate IsStep(cfg: Config, cs: seq<Cached>, calls: seq<Call>, i: nat)
    requires i < |calls| < |cs|
  {
    && calls[i].InOrder()
    && (i > 0 ==> calls[i - 1].finished <= calls[i].examined)
    && cs[i + 1] == After(cfg, cs[i], calls[i])
  }

  /** A fetch takes at most `longest` and brings what was published at some moment during it. */
  ghost predicate Genuine(call: Call, published: Time -> set<Kid>, longest: Duration) {
    call.fetch.Got? ==>
      && call.finished <= call.started + longest
      && exists p: Time :: call.started <= p <= call.finished && call.fetch.kids == published(p)
  }

  ghost predicate Published(fetched: Fetched, published: Time -> set<Kid>, longest: Duration) {
    exists p: Time :: p <= fetched.at <= p + longest && fetched.kids == published(p)
  }

  ghost predicate Inv(c: Cached, now: Time, published: Time -> set<Kid>, longest: Duration) {
    && (c.keys.Some? ==> c.keys.value.at <= now && Published(c.keys.value, published, longest))
    && (c.lastAttempt.Some? ==> c.lastAttempt.value <= now)
  }

  lemma {:induction false} RunInv(
      cfg: Config, cs: seq<Cached>, calls: seq<Call>, published: Time -> set<Kid>, longest: Duration, i: nat)
    requires IsRun(cfg, cs, calls, published, longest) && i < |calls|
    ensures Inv(cs[i], calls[i].examined, published, longest)
    ensures IsStep(cfg, cs, calls, i) && Genuine(calls[i], published, longest)
  {
    assert IsGenuineStep(cfg, cs, calls, published, longest, i);
    if i > 0 {
      RunInv(cfg, cs, calls, published, longest, i - 1);
      var call := calls[i - 1];
      if Fetches(cfg, cs[i - 1], call) && call.fetch.Got? {
        var p: Time :| call.started <= p <= call.finished && call.fetch.kids == published(p);
        assert p <= call.finished <= p + longest;
        assert Published(Fetched(call.fetch.kids, call.finished), published, longest);
      }
    }
  }

  /** Two fetches start at least `minRefresh` apart, failed and cancelled ones included. */
  lemma FetchesApart(cfg: Config, cs: seq<Cached>, calls: seq<Call>, published: Time -> set<Kid>, longest: Duration,
                     i: nat, j: nat)
    requires IsRun(cfg, cs, calls, published, longest) && i < j < |calls|
    requires Fetches(cfg, cs[i], calls[i]) && Fetches(cfg, cs[j], calls[j])
    ensures calls[j].started >= calls[i].started + cfg.minRefresh
  {
    assert IsGenuineStep(cfg, cs, calls, published, longest, i);
    AttemptsOnlyLater(cfg, cs, calls, published, longest, i + 1, j);
    RunInv(cfg, cs, calls, published, longest, j);
  }

  lemma {:induction false} AttemptsOnlyLater(
      cfg: Config, cs: seq<Cached>, calls: seq<Call>, published: Time -> set<Kid>, longest: Duration, i: nat, j: nat)
    requires IsRun(cfg, cs, calls, published, longest) && i <= j < |calls|
    requires cs[i].lastAttempt.Some?
    ensures cs[j].lastAttempt.Some? && cs[j].lastAttempt.value >= cs[i].lastAttempt.value
  {
    if j > i {
      AttemptsOnlyLater(cfg, cs, calls, published, longest, i, j - 1);
      RunInv(cfg, cs, calls, published, longest, j - 1);
    }
  }

  /** Keys handed out for a kid always hold it. */
  lemma AnswersHoldTheKid(cfg: Config, c: Cached, call: Call)
    ensures Answered(cfg, c, call).Keys? && call.kid.Some? ==> call.kid.value in Answered(cfg, c, call).kids
    ensures Answered(cfg, c, call) == Error(Throttled) ==> !Fetches(cfg, c, call)
    ensures Answered(cfg, c, call).NoAnswer? ==> call.fetch.Gone? && After(cfg, c, call).keys == c.keys
  {
  }

  /** Keys that still hold a withdrawn kid came with a fetch begun before the withdrawal. */
  lemma HeldMeansOld(fetched: Fetched, published: Time -> set<Kid>, longest: Duration, kid: Kid, withdrawn: Time)
    requires Published(fetched, published, longest)
    requires forall t: Time :: withdrawn <= t ==> kid !in published(t)
    requires kid in fetched.kids
    ensures fetched.at < withdrawn + longest
  {
    var p: Time :| p <= fetched.at <= p + longest && fetched.kids == published(p);
    assert p < withdrawn;
  }

  lemma GotMeansOld(call: Call, published: Time -> set<Kid>, longest: Duration, kid: Kid, withdrawn: Time)
    requires Genuine(call, published, longest) && call.fetch.Got?
    requires forall t: Time :: withdrawn <= t ==> kid !in published(t)
    requires kid in call.fetch.kids
    ensures call.started < withdrawn
  {
    var p: Time :| call.started <= p <= call.finished && call.fetch.kids == published(p);
    assert p < withdrawn;
  }

  /**
   * A key withdrawn at `withdrawn` is never handed out by a call that looks at the cache a fetch and
   * twice the greatest age later, under any mix of failed, throttled and cancelled fetches.
   */
  lemma WithdrawnKeysStop(cfg: Config, cs: seq<Cached>, calls: seq<Call>, published: Time -> set<Kid>, longest: Duration,
                          i: nat, kid: Kid, withdrawn: Time)
    requires IsRun(cfg, cs, calls, published, longest) && i < |calls|
    requires forall t: Time :: withdrawn <= t ==> kid !in published(t)
    requires calls[i].examined >= withdrawn + longest + 2 * cfg.maxAge
    ensures Answered(cfg, cs[i], calls[i]).Keys? ==> kid !in Answered(cfg, cs[i], calls[i]).kids
  {
    RunInv(cfg, cs, calls, published, longest, i);
    var c, call := cs[i], calls[i];
    if c.keys.Some? && kid in c.keys.value.kids {
      HeldMeansOld(c.keys.value, published, longest, kid, withdrawn);
    }
    if call.fetch.Got? && kid in call.fetch.kids {
      GotMeansOld(call, published, longest, kid, withdrawn);
    }
  }

  /**
   * Past one greatest age, a withdrawn key is handed out only to a token that names a kid the old keys
   * hold, and only when the fetch that would have replaced them was throttled or failed.
   */
  lemma WithdrawnKeysOutliveOneAgeOnlyUnfetched(
      cfg: Config, cs: seq<Cached>, calls: seq<Call>, published: Time -> set<Kid>, longest: Duration,
      i: nat, kid: Kid, withdrawn: Time)
    requires IsRun(cfg, cs, calls, published, longest) && i < |calls|
    requires forall t: Time :: withdrawn <= t ==> kid !in published(t)
    requires calls[i].examined >= withdrawn + longest + cfg.maxAge
    requires Answered(cfg, cs[i], calls[i]).Keys? && kid in Answered(cfg, cs[i], calls[i]).kids
    ensures Stale(cfg, cs[i], calls[i]) == Some(Answered(cfg, cs[i], calls[i]).kids)
    ensures TooSoon(cfg, cs[i], calls[i]) || calls[i].fetch.Broke?
  {
    RunInv(cfg, cs, calls, published, longest, i);
    var c, call := cs[i], calls[i];
    if c.keys.Some? && kid in c.keys.value.kids {
      HeldMeansOld(c.keys.value, published, longest, kid, withdrawn);
    }
    if call.fetch.Got? && kid in call.fetch.kids {
      GotMeansOld(call, published, longest, kid, withdrawn);
    }
  }

  // ----- Who gets keys, from what the run's fetches brought

  /** The call fetched, and keys came. */
  ghost predicate Brought(cs: seq<Cached>, calls: seq<Call>, cfg: Config, j: nat) {
    j < |calls| && j < |cs| && Fetches(cfg, cs[j], calls[j]) && calls[j].fetch.Got?
  }

  /** The last fetch before `i` that brought keys was that of call `j`. */
  ghost predicate LastBrought(cs: seq<Cached>, calls: seq<Call>, cfg: Config, j: nat, i: nat) {
    && j < i && Brought(cs, calls, cfg, j)
    && forall k :: j < k < i ==> !Brought(cs, calls, cfg, k)
  }

  /** The last fetch before `i` that was begun at all was that of call `j`. */
  ghost predicate LastFetched(cs: seq<Cached>, calls: seq<Call>, cfg: Config, j: nat, i: nat) {
    && j < i && i <= |calls| && i <= |cs| && Fetches(cfg, cs[j], calls[j])
    && forall k :: j < k < i ==> !Fetches(cfg, cs[k], calls[k])
  }

  /** The cache holds what the last fetch to bring keys brought, and knows when the last one began. */
  lemma {:induction false} CacheIsHistory(
      cfg: Config, cs: seq<Cached>, calls: seq<Call>, published: Time -> set<Kid>, longest: Duration, j: nat, i: nat)
    requires IsRun(cfg, cs, calls, published, longest) && j < i <= |calls|
    ensures LastBrought(cs, calls, cfg, j, i) ==> cs[i].keys == Some(Fetched(calls[j].fetch.kids, calls[j].finished))
    ensures LastFetched(cs, calls, cfg, j, i) ==> cs[i].lastAttempt == Some(calls[j].started)
  {
    assert IsGenuineStep(cfg, cs, calls, published, longest, i - 1);
    if j < i - 1 {
      CacheIsHistory(cfg, cs, calls, published, longest, j, i - 1);
      assert LastBrought(cs, calls, cfg, j, i) ==> LastBrought(cs, calls, cfg, j, i - 1) && !Brought(cs, calls, cfg, i - 1);
      assert LastFetched(cs, calls, cfg, j, i) ==> LastFetched(cs, calls, cfg, j, i - 1);
    }
  }

  lemma {:induction false} NothingBrought(
      cfg: Config, cs: seq<Cached>, calls: seq<Call>, published: Time -> set<Kid>, longest: Duration, i: nat)
    requires IsRun(cfg, cs, calls, published, longest) && i <= |calls|
    ensures (forall k :: 0 <= k < i ==> !Brought(cs, calls, cfg, k)) ==> cs[i].keys == None
    ensures (forall k :: 0 <= k < i ==> !Fetches(cfg, cs[k], calls[k])) ==> cs[i].lastAttempt == None
  {
    if i > 0 {
      NothingBrought(cfg, cs, calls, published, longest, i - 1);
      assert IsGenuineStep(cfg, cs, calls, published, longest, i - 1);
      assert !Brought(cs, calls, cfg, i - 1) ==> cs[i].keys == cs[i - 1].keys;
    }
  }

  /** A call begins a fetch unless recent keys serve it or the last fetch began too recently. */
  lemma FetchesIff(cfg: Config, c: Cached, call: Call)
    ensures Fetches(cfg, c, call) <==>
      && !(c.keys.Some? && call.examined < c.keys.value.at + cfg.maxAge
           && (call.kid.None? || call.kid.value in c.keys.value.kids))
      && !(c.lastAttempt.Some? && call.checked < c.lastAttempt.value + cfg.minRefresh)
  {
  }

  /**
   * Keys that an earlier fetch brought, with no other since, serve every call whose kid they hold, or
   * that names none, until they reach the age; and up to twice the age a call whose kid they hold, when
   * a fetch would come too soon or breaks.
   */
  lemma KeysServe(cfg: Config, cs: seq<Cached>, calls: seq<Call>, published: Time -> set<Kid>, longest: Duration, j: nat, i: nat)
    requires IsRun(cfg, cs, calls, published, longest) && i < |calls| && LastBrought(cs, calls, cfg, j, i)
    ensures var kids, at, call := calls[j].fetch.kids, calls[j].finished, calls[i];
      && ((call.kid.None? || call.kid.value in kids) && call.examined < at + cfg.maxAge ==>
            Answered(cfg, cs[i], call) == Keys(kids) && !Fetches(cfg, cs[i], call))
      && (call.kid.Some? && call.kid.value in kids && call.aged < at + 2 * cfg.maxAge
          && (!Fetches(cfg, cs[i], call) || call.fetch.Broke?) ==>
            Answered(cfg, cs[i], call) == Keys(kids))
  {
    CacheIsHistory(cfg, cs, calls, published, longest, j, i);
  }

  /** A call that fetches gets what the fetch brings if its kid is in it, and is told so if not. */
  lemma FetchedKeysServe(cfg: Config, c: Cached, call: Call)
    requires Fetches(cfg, c, call)
    ensures call.fetch.Got? ==>
      Answered(cfg, c, call) == if call.kid.None? || call.kid.value in call.fetch.kids then Keys(call.fetch.kids)
                                else Error(UnknownKey(call.kid.value))
    ensures call.fetch.Got? ==> After(cfg, c, call).keys == Some(Fetched(call.fetch.kids, call.finished))
    ensures After(cfg, c, call).lastAttempt == Some(call.started)
    ensures call.fetch.Gone? ==> Answered(cfg, c, call) == NoAnswer
  {
  }

  /** Every error has its cause: a kid the fetch did not bring, a fetch that came too soon, one that broke; and no old keys to serve instead. */
  lemma ErrorsHaveTheirCause(cfg: Config, cs: seq<Cached>, calls: seq<Call>, published: Time -> set<Kid>, longest: Duration, i: nat)
    requires IsRun(cfg, cs, calls, published, longest) && i < |calls| && Answered(cfg, cs[i], calls[i]).Error?
    ensures var call := calls[i];
      match Answered(cfg, cs[i], call).error
      case UnknownKey(kid) =>
        Fetches(cfg, cs[i], call) && call.fetch.Got? && call.kid == Some(kid) && kid !in call.fetch.kids
      case Throttled =>
        exists k | 0 <= k < i :: Fetches(cfg, cs[k], calls[k]) && call.checked < calls[k].started + cfg.minRefresh
      case FetchFailed(cause) =>
        Fetches(cfg, cs[i], call) && call.fetch == Broke(cause)
    ensures var call := calls[i];
      !Answered(cfg, cs[i], call).error.UnknownKey? ==>
        forall j: nat :: LastBrought(cs, calls, cfg, j, i) ==>
          !(call.kid.Some? && call.kid.value in calls[j].fetch.kids && call.aged < calls[j].finished + 2 * cfg.maxAge)
  {
    var call := calls[i];
    forall j: nat | LastBrought(cs, calls, cfg, j, i)
      ensures cs[i].keys == Some(Fetched(calls[j].fetch.kids, calls[j].finished))
    {
      CacheIsHistory(cfg, cs, calls, published, longest, j, i);
    }
    if Answered(cfg, cs[i], call).error.Throttled? {
      var k := LastAttemptWas(cfg, cs, calls, published, longest, i);
    }
  }

  lemma {:induction false} LastAttemptWas(
      cfg: Config, cs: seq<Cached>, calls: seq<Call>, published: Time -> set<Kid>, longest: Duration, i: nat) returns (k: nat)
    requires IsRun(cfg, cs, calls, published, longest) && i <= |calls| && cs[i].lastAttempt.Some?
    ensures k < i && Fetches(cfg, cs[k], calls[k]) && cs[i].lastAttempt == Some(calls[k].started)
  {
    assert IsGenuineStep(cfg, cs, calls, published, longest, i - 1);
    if Fetches(cfg, cs[i - 1], calls[i - 1]) {
      k := i - 1;
    } else {
      k := LastAttemptWas(cfg, cs, calls, published, longest, i - 1);
    }
  }
}
