# WeaveAuth: a verified model of its state machines

WeaveAuth puts a backend-for-frontend (bff), a login page and a set of hooks around Ory Hydra and Ory Kratos. Most of it
passes requests on; the parts with behaviour of their own are a handful of small concurrent state machines and text
languages. This project models those in Dafny and proves what they promise, over every run and every input.

`dafny verify dfyconfig.toml` checks everything.

## What is modelled

**The session protocol.** Browser requests, logins, logouts, back-channel logouts, revocations and the expiry sweep act
at the same time on a session store with two indexes, a table of reference-counted locks, and refresh tokens that Hydra
rotates (section 6 of RFC 6749; section 10.4 of RFC 6749 on presenting a replaced token again; section 2 of RFC 7009 on
revocation). There are two layers.

- `InMemorySessions.Sessions` and `RefreshLocks.RefreshLocks` are classes that change their fields as the program does.
  Each method is proved equal to a function on values (`SessionStore.Store`, `RefreshLock.Table`).
- `Protocol` is a step relation over those same values: one step per await point, with a program counter per task.
  Hydra's answers (tokens with or without a rotated refresh token, a refusal, any other failure) and the order of steps
  are nondeterministic, and a request may go away at any await point. `ProtocolInvariant` proves that every step keeps
  one invariant, and `ProtocolRuns` draws the conclusions about whole runs. Each refresh token carries a `Fate`, which is
  bookkeeping of the model: `FateIsHistory` proves that it records what really happened.
- `ProtocolSteps` says of every step, in terms of the sessions' own fields, what a caller sees of it.

**The login throttle** (`Throttle`, `LoginThrottle`, `ThrottleRate`, `ThrottleSweeping`): per-identifier delays, the cap on
the map, batch eviction by an in-place partial selection, and what all of it bounds over whole runs.

**The cache of signing keys** (`Jwks`): single-flight, throttled and tolerant of outages, against an environment that
rotates and withdraws keys.

**Back-channel logout replay** (`LogoutToken`, `LogoutJtis`): the claims check and the memory of used tokens
(section 2.6 of OpenID Connect Back-Channel Logout 1.0), with separate clock readings for verifying and for recording.

**The recovery revocation** (`Kratos`, `Revocation`): purge, end the sessions, purge again, and the bounded paging loop,
against a Kratos that others use meanwhile and whose calls may fail, or fail after taking effect.

**Scanners and printers**: the `{name}` language of the translation files with its two scanners (`Template`, `Catalog`),
the `X-Forwarded-For` walk with the nets it trusts (`ForwardedFor`), and the cookie printer and parser (`PercentEncoding`, `Cookie`).

Time is a natural number of nanoseconds; every reading of a clock is an input of the step or call that makes it. Session
ids, tokens, kids and passwords are opaque values, and new ones are fresh.

## Where the code does less than one might think

Each of these is stated with a run or an input that shows it, next to what holds instead.

- *A refresh token Hydra has replaced is presented again* when its own replacement was lost before it reached the store
  (`ProtocolWitness.LostAnswerIsPresentedAgain`), and only then: a token that is presented had been replaced if and only
  if it was lost so (`ProtocolRuns.ReplacedByHydraPresentedOnlyIfLost`).
- *A request of a session that has ended is served* when the session ends while the request waits for its turn, as the
  end is looked at only once (`ProtocolWitness.ServedAfterTheEnd`). At any time past its end a stale session can be
  served to a request that first looked at it at some instant if and only if that instant was before the end
  (`ProtocolWitness.ServedLateIff`), and such a request has asked for the turn first
  (`ProtocolRuns.ServedPastTheEndWaited`). Hydra's answers are free in the model: at a time at which the refresh token
  has itself run out, being served takes a Hydra that still honours it. `ServedAfterTheEnd` does not need that.
- *A logout token is accepted twice* at the very end of its window, where the age check still passes and the memory no
  longer refuses (`LogoutJtis.AcceptedTwice`); `LogoutJtis.Run.RepeatAcceptedIff` says exactly when.
- *A cookie sent twice is not noticed* when the second comes in another `Cookie` header line
  (`Cookie.LaterLinesAreIgnored`), although `extract_cookie` is documented to refuse a cookie sent more than once. It is
  refused if and only if the first line is unreadable or does not hold it exactly once (`Cookie.SentTwiceRefusedIff`).

## Model

| member | source | states |
|---|---|---|
| Session.SessionData.EndsAt | bff/src/model/session.rs:31-34 | a session ends with its refresh token or 30 days after its login, whichever comes first |
| Session.SelectorsMatch | bff/src/model/session.rs:50-58 | which sessions each of the three selectors matches, both ways |
| SessionStore.WithoutValid | bff/src/storage/in_memory.rs:31-49 | removing any set of sessions leaves each user an exact, duplicate-free, never empty index entry, in the old order |
| SessionStore.InsertedValid | bff/src/storage/in_memory.rs:23-29 | inserting keeps the two indexes exact, also when the id was another user's |
| SessionStore.InsertedIs | bff/src/storage/in_memory.rs:23-29 | the session is stored as given and goes to the end of its user's list; no other session or order changes |
| SessionStore.UpdatedValid | bff/src/storage/in_memory.rs:86-98 | replacing a session of the same user keeps the indexes exact and every user's number of sessions |
| SessionStore.ExpiredAre | bff/src/storage/in_memory.rs:134-139 | what a sweep drops: whose refresh token or thirty days have run out |
| SessionStore.MatchingAre | bff/src/storage/in_memory.rs:104-123 | what each selector finds, by user and login |
| SessionStore.SortedByAgeInOrder | bff/src/storage/in_memory.rs:69-78 | the order evictions follow: by creation, ties in listing order |
| SessionStore.SaveKeepsTheCap | bff/src/storage/in_memory.rs:65-80 | after a login its user has at most 20 sessions, exactly 20 if any was pushed out; nobody else's list changes |
| SessionStore.SaveEvictsTheOldest | bff/src/storage/in_memory.rs:69-79 | whatever is pushed out is the same user's and older than whatever stays |
| SessionStore.SaveKeepsTheNewest | bff/src/storage/in_memory.rs:65-80 | a login at least as new as the user's others is never pushed out, which needs the sort to be stable |
| SessionStore.SaveConserves | bff/src/storage/in_memory.rs:65-80 | under a fresh id, the sessions before plus the new one are the sessions after plus those handed back, none twice |
| InMemorySessions.CollectedEach | bff/src/storage/in_memory.rs:46-48 | removing distinct stored sessions hands back each one's data, in order |
| InMemorySessions.Sessions.Unindex | bff/src/storage/in_memory.rs:37-44 | takes one id from one user's entry, and the entry with its last id |
| InMemorySessions.Sessions.Insert | bff/src/storage/in_memory.rs:23-29 | the in-place update is the value-level insertion, a replaced session's index entry included |
| InMemorySessions.Sessions.Remove | bff/src/storage/in_memory.rs:31-35 | drops the session from both indexes and hands back what was stored |
| InMemorySessions.Sessions.RemoveAll | bff/src/storage/in_memory.rs:46-48 | drops exactly the named sessions and hands back what they held |
| InMemorySessions.Sessions.SaveSession | bff/src/storage/in_memory.rs:65-80 | stores the login, evicts the excess and hands the evicted sessions back |
| InMemorySessions.Sessions.GetSession | bff/src/storage/in_memory.rs:82-84 | an answer is the stored session, listed in the index for its own user and nobody else; without one, the index has the id nowhere |
| InMemorySessions.Sessions.UpdateSession | bff/src/storage/in_memory.rs:86-98 | replaces an existing session only, and says whether it was there |
| InMemorySessions.Sessions.TakeSession | bff/src/storage/in_memory.rs:100-102 | takes the session out of both indexes |
| InMemorySessions.Sessions.Revoke | bff/src/storage/in_memory.rs:104-125 | the index-driven search drops and returns exactly the sessions a scan of all would match, each once |
| InMemorySessions.Sessions.SweepExpired | bff/src/storage/in_memory.rs:129-141 | drops exactly the sessions whose end has come |
| RefreshLock.AskedValid | bff/src/server/refresh_lock.rs:24-36 | asking keeps every count exact, every handle on the map's own lock, and at most one holder |
| RefreshLock.GrantedValid | bff/src/server/refresh_lock.rs:33-35 | granting a free lock keeps the table valid |
| RefreshLock.GivenUpValid | bff/src/server/refresh_lock.rs:24-36 | a waiter that goes away takes its own reference only |
| RefreshLock.ReleasedValid | bff/src/server/refresh_lock.rs:54-67 | dropping the guard keeps the table valid, whether or not the entry goes |
| RefreshLock.ReleasedIs | bff/src/server/refresh_lock.rs:54-67 | a release gives the handle back and forgets the entry exactly when nobody waits for it |
| RefreshLock.PrunedValid | bff/src/server/refresh_lock.rs:37-41 | a prune removes exactly the entries nobody waits for or holds |
| RefreshLock.OneHolderPerSession | bff/src/server/refresh_lock.rs:14-36 | at most one request has the turn of a session |
| RefreshLock.WhoLeavesOrphans | bff/src/server/refresh_lock.rs:37-67 | a release never leaves an unused lock; a waiter going away does exactly when it was the only one |
| RefreshLocks.RefreshLocks.Ask | bff/src/server/refresh_lock.rs:24-35 | the in-place step is the table's, and the request gets the map's own lock |
| RefreshLocks.RefreshLocks.GiveUp | bff/src/server/refresh_lock.rs:33-36 | a dropped waiting future changes nothing but its reference |
| RefreshLocks.RefreshLocks.Release | bff/src/server/refresh_lock.rs:54-67 | the guard's drop is the table's release |
| RefreshLocks.RefreshLocks.Prune | bff/src/server/refresh_lock.rs:37-41 | keeps exactly the entries that are waited for or held |
| ProtocolInvariant.InvKept | bff/src/server/api/proxy.rs:318-410 | every step of every task keeps the protocol's invariant: store, cap, locks, turns, tokens and what Hydra has replaced |
| ProtocolInvariant.TurnsKept | bff/src/server/refresh_lock.rs:24-67 | every step keeps the lock table valid and in line with the tasks that wait for a turn or have it |
| ProtocolInvariant.StoreKept | bff/src/storage/in_memory.rs:22-142 | every step keeps the store valid, capped, and within the ids ever used |
| ProtocolRuns.RunInv | bff/src/server/api/proxy.rs:318-410 | the invariant holds at every point of every run |
| ProtocolRuns.FateIsHistory | bff/src/server/api/proxy.rs:363-410 | the only way a token's fate changes, per fate: by which step, of which task, about which session |
| ProtocolRuns.TokenAccounting | bff/src/server/api/proxy.rs:363-410 | without cancelled requests every refresh token is in exactly one place, and once the tasks are through it is current, replaced, asked to be revoked, refused or swept |
| ProtocolRuns.StoredTokensKnown | bff/src/server/api/proxy.rs:377-401 | every token a session was ever stored with stays accounted for as that session's |
| ProtocolRuns.ReturnedTokensKnown | bff/src/server/api/proxy.rs:368-384 | every token a refresh ever returned stays accounted for as its session's |
| ProtocolRuns.EndedSessionLeavesNothing | bff/src/server/mod.rs:51-85 | a session ended by logout, back-channel logout, revocation, eviction or re-login, even during its own refresh, leaves only tokens that were replaced or are asked to be revoked |
| ProtocolRuns.NoResurrection | bff/src/storage/in_memory.rs:86-98 | a removed session id never reappears |
| ProtocolRuns.RefreshesKeepTheLogin | bff/src/server/api/proxy.rs:382-392 | refreshes never change user, sid, creation or id token, so no session leaves or joins a selector and none outlives 30 days |
| ProtocolRuns.SessionCap | bff/src/server/api/callback.rs:274-296 | at every point of every run the index is exact and no user has more than 20 sessions |
| ProtocolRuns.ReplacedNeverPresented | bff/src/server/api/proxy.rs:334-401 | a refresh token that a completed refresh replaced in the store is never presented again, cancellations or not |
| ProtocolRuns.ReplacedByHydraPresentedOnlyIfLost | bff/src/server/api/proxy.rs:334-384 | a presented token was replaced by Hydra if and only if an earlier step lost its replacement: the answer went astray, or its request was cancelled before the store |
| ProtocolRuns.NoRepresentation | bff/src/server/api/proxy.rs:334-401 | a token Hydra has replaced is not presented unless its own replacement was lost, whatever other answers are |
| ProtocolRuns.AnsweredNeverPresented | bff/src/server/api/proxy.rs:368-401 | once Hydra's replacement for a token has come back to a request that is not cancelled before it stores it, that token is never presented again, whatever else is lost, ended or cancelled |
| ProtocolRuns.LockTable | bff/src/server/refresh_lock.rs:24-67 | at every point of every run a session's lock counts one for the map and one per waiter and holder, all on the map's own lock, at most one with the turn |
| ProtocolRuns.NoOrphans | bff/src/server/refresh_lock.rs:37-67 | where no waiter goes away, no unused lock ever stays in the map |
| ProtocolRuns.BearerWasStored | bff/src/server/api/proxy.rs:318-350 | every bearer token a request resolves to was its session's stored one at some instant during the call |
| ProtocolRuns.ServedBeforeTheEndUnlessItWaited | bff/src/server/api/proxy.rs:327-332 | a request that never asked for the turn is served only with a fresh token of a session that had not ended at its check |
| ProtocolRuns.TooLateIsNeverServed | bff/src/server/api/proxy.rs:327-329 | a request whose first look comes at or past its session's end gets nothing, whatever happens next |
| ProtocolRuns.ServedPastTheEndWaited | bff/src/server/api/proxy.rs:327-349 | a served request that read the clock at or past its session's end did so in the second look, after it had asked for the turn |
| ProtocolRuns.ServedOnlyIfItCameBeforeTheEnd | bff/src/server/api/proxy.rs:327-329 | every served request found its session not yet ended at its first look |
| ProtocolWitness.NextRequestPresents | bff/src/server/api/proxy.rs:318-372 | from any reachable state with nobody at it, the next request of a stale session does present its stored refresh token |
| ProtocolWitness.LostAnswerIsPresentedAgain | bff/src/server/api/proxy.rs:368-401 | a run in which a request goes away between Hydra's answer and the store, and the replaced token is presented again |
| ProtocolWitness.ServedLateIff | bff/src/server/api/proxy.rs:318-350 | in any reachable state, a stale session nobody is at can be served at any time at or past its end to a request that first looked at a given instant if and only if that was before the end |
| ProtocolWitness.LateServiceExists | bff/src/server/api/proxy.rs:318-350 | the run behind it: another request has the turn, its call to Hydra fails, and the one behind it is served |
| ProtocolWitness.ServedAfterTheEnd | bff/src/server/api/proxy.rs:334-349 | a run in which a session's thirty days end while its request waits, and the request is served, the refresh token still good |
| ProtocolSteps.LogoutEnds | bff/src/server/mod.rs:51-61 | a logout takes its session out of the store, leaves every other as it was, and is left with exactly its refresh token to revoke |
| ProtocolSteps.SelectedEnd | bff/src/server/mod.rs:66-69 | ending by selector leaves no stored session that it matches and every other as it was, with exactly the dropped tokens to revoke |
| ProtocolSteps.LogoutLeavesNothing | bff/src/server/mod.rs:51-61 | a session that was logged out is gone for good, and once the tasks are through each of its refresh tokens was replaced or is asked to be revoked |
| ProtocolSteps.SelectedLeaveNothing | bff/src/server/mod.rs:66-85 | the same for every session that a back-channel logout or a revocation matches |
| ProtocolSteps.TheLivingAreNeverRevoked | bff/src/server/mod.rs:51-85 | at every point of every run, no stored session's refresh token has been asked to be revoked |
| ProtocolSteps.SweepEndsTheExpired | bff/src/server/mod.rs:112-124 | a sweep leaves exactly the sessions with time left, as they were, and asks nothing of Hydra |
| ProtocolSteps.LoginStores | bff/src/server/api/callback.rs:274-291 | a login stores its session as given and takes out none but sessions of its own user |
| ProtocolSteps.LoginStays | bff/src/server/api/callback.rs:274-291 | a login as new as its user's others is stored |
| ProtocolSteps.LoginFindsRoom | bff/src/server/api/callback.rs:274-291 | a login of a user with fewer than 20 sessions is stored and takes out nobody |
| ProtocolSteps.LoginOwes | bff/src/server/api/callback.rs:274-292 | exactly the tokens of the sessions it takes out are left to be revoked |
| ProtocolSteps.RefusalEndsTheSession | bff/src/server/api/proxy.rs:368-379 | a refused refresh token takes its session out, and no other |
| ProtocolSteps.OthersTouchNoSession | bff/src/storage/in_memory.rs:64-142 | no step but logins, logouts, revocations, sweeps, refusals and stored refreshes changes the store |
| ProtocolSteps.CancelTouchesNoSession | bff/src/server/api/proxy.rs:318-410 | a request that goes away changes no session, asks nothing, gives its lock back, and leaves open whether Hydra replaced what it presented |
| ProtocolSteps.ReadsSeeTheStore | bff/src/server/api/proxy.rs:322-343 | both reads see what is stored at that instant |
| ProtocolSteps.FirstLook | bff/src/server/api/proxy.rs:327-332 | the first look refuses an ended session, serves a token with more than five seconds left, and queues otherwise |
| ProtocolSteps.SecondLook | bff/src/server/api/proxy.rs:338-348 | the second look serves a token with more than five seconds left without presenting anything, and presents the refresh token otherwise |
| ProtocolSteps.PresentedIff | bff/src/server/api/proxy.rs:344-372 | a refresh token is presented exactly by a second look that finds five seconds or less |
| ProtocolSteps.ServedWithAFreshToken | bff/src/server/api/proxy.rs:318-354 | every token a request is served with had more than five seconds left at one of its looks, or is Hydra's answer to its own call |
| ProtocolSteps.FreshIsServedAtOnce | bff/src/server/api/proxy.rs:327-332 | a session before its end with more than five seconds left is served at the first look with its own token; the request takes no further step |
| ProtocolSteps.AnswerLeads | bff/src/server/api/proxy.rs:368-392 | where each answer of Hydra takes a request, and every field of the session it is about to store |
| ProtocolSteps.CommitStores | bff/src/server/api/proxy.rs:393-410 | the new tokens are stored and served if the session is still there; else the store is left alone and they are left to be revoked |
| ProtocolSteps.RefreshIsStored | bff/src/server/api/proxy.rs:363-410 | from Hydra's answer to the store, whatever happens in between: the two tokens and their two expiries are the answer's, all else the session's own |
| ProtocolSteps.NobodyIsStuck | bff/src/server/refresh_lock.rs:24-67 | no deadlock: in every run each task that is not through can take a step or waits for the turn of one that can |
| ProtocolSteps.AnythingMayBegin | bff/src/server/mod.rs:112-124 | at every point of every run a request, logout, revocation, login, sweep or prune may begin |
| ProtocolSteps.AnythingMayHappen | bff/src/server/api/proxy.rs:318-410 | clock readings, Hydra's answers and cancellations are not restricted |
| Throttle.DelayedEvictedLast | login/src/throttle.rs:84-98 | an identifier with five attempts is evicted only when none with fewer is kept, and among equals the oldest go |
| Throttle.BatchSize | login/src/throttle.rs:93-97 | an eviction takes ten thousand entries, or all of fewer |
| Throttle.OthersUntouched | login/src/throttle.rs:108-132 | an attempt touches no other identifier unless it is for a new one and the map is full |
| Throttle.SweptAre | login/src/throttle.rs:153-155 | a sweep leaves exactly the entries of the last hour, as they are |
| Throttle.CapKept | login/src/throttle.rs:108-132 | no call takes the map beyond 100000 identifiers, and an admitted one is tracked |
| LoginThrottle.SelectLowest | login/src/throttle.rs:93-94 | the in-place selection permutes the entries and puts the lowest ranked first |
| LoginThrottle.LoginThrottle.LowestRanked | login/src/throttle.rs:88-97 | what is chosen is exactly min(10000, size) entries, each ranked no higher than every one kept |
| LoginThrottle.LoginThrottle.Evict | login/src/throttle.rs:88-98 | exactly the chosen entries go, the others are untouched |
| LoginThrottle.LoginThrottle.Admit | login/src/throttle.rs:108-132 | the answer and the new entries: a wait, a counted attempt, or a new identifier, with an eviction only at the cap |
| LoginThrottle.LoginThrottle.Settle | login/src/throttle.rs:134-150 | a failure stays counted, a success forgets the identifier, a non-attempt gives one count back |
| LoginThrottle.LoginThrottle.Sweep | login/src/throttle.rs:153-157 | drops exactly the identifiers nobody tried for an hour |
| ThrottleRate.GuessRate | login/src/throttle.rs:74-150 | n attempts that count, less than an hour apart, span at least 30 seconds for each of the five after the first five and 300 for each beyond; at most 21 fit |
| ThrottleRate.CountsStayInRange | login/src/throttle.rs:108-150 | an entry's count never exceeds ten plus one per 300 seconds of the clock, and the map never exceeds its cap, in any run |
| ThrottleRate.RefusedIff | login/src/throttle.rs:74-150 | in any run, evictions and successes included, an attempt is refused if and only if five or more count, the last is under an hour old, and less than 30 seconds (300 from ten on) have passed since; the wait named is exactly the rest |
| ThrottleRate.WaitIsHonest | login/src/throttle.rs:108-119 | a refusal names a wait of more than 0 and at most 300 seconds, after which an attempt is admitted unless another was |
| ThrottleSweeping.SweepsAreInvisible | login/src/throttle.rs:108-157 | below the cap, sweeps anywhere in a run of calls change no answer |
| ThrottleSweeping.BelowCapIsDetermined | login/src/throttle.rs:108-132 | below the cap a call's answer and effect are those the sweep result is about |
| Jwks.JwksCache.KeysFor | bff/src/hydra/jwks.rs:89-121 | the answer and the new cache for every mix of age, kid, throttling and fetch result |
| Jwks.FetchesApart | bff/src/hydra/jwks.rs:104-110 | two fetches start at least the minimum interval apart, failed and cancelled ones included |
| Jwks.AnswersHoldTheKid | bff/src/hydra/jwks.rs:89-121 | keys handed out for a kid hold it; a throttled or cancelled call changes no keys |
| Jwks.CacheIsHistory | bff/src/hydra/jwks.rs:111-116 | the cache holds what the last fetch to bring keys brought and knows when the last fetch began |
| Jwks.FetchesIff | bff/src/hydra/jwks.rs:91-110 | a call fetches unless recent keys serve it or the last fetch began too recently |
| Jwks.KeysServe | bff/src/hydra/jwks.rs:91-114 | keys once brought serve every call they hold the kid of up to the age, and up to twice the age when a fetch is throttled or breaks |
| Jwks.FetchedKeysServe | bff/src/hydra/jwks.rs:111-120 | a call that fetches gets what the fetch brings if its kid is in it, else is told that the kid is unknown |
| Jwks.ErrorsHaveTheirCause | bff/src/hydra/jwks.rs:97-120 | every error has its cause in the run, and no older keys that could have served |
| Jwks.WithdrawnKeysStop | bff/src/hydra/jwks.rs:89-121 | a withdrawn key is never handed out by a call that looks a fetch and two ages later |
| Jwks.WithdrawnKeysOutliveOneAgeOnlyUnfetched | bff/src/hydra/jwks.rs:96-118 | past one age, a withdrawn key is handed out only for a kid the old keys hold and only when the fetch was throttled or failed |
| LogoutToken.AcceptedInsideWindow | bff/src/hydra/logout_token.rs:117-127 | an accepted token is accepted the same at every later time up to its replay time, and is too old at every time after it |
| LogoutToken.AcceptedIff | bff/src/hydra/logout_token.rs:113-167 | a token is accepted if and only if it was issued at most 60 seconds ahead and 11 minutes back, is a logout event without a nonce, names a readable user or else a login, and has a name of its own, held back until 11 minutes after its issue |
| LogoutToken.RefusedForAFault | bff/src/hydra/logout_token.rs:117-160 | a refusal names a fault that the token has |
| LogoutToken.TargetIsNamed | bff/src/hydra/logout_token.rs:140-159 | an accepted token ends exactly the sessions of the user and login it names, with those of unknown login where it names both |
| LogoutJtis.JtiStorage.Record | bff/src/storage/in_memory.rs:158-168 | refuses exactly a token still remembered, else remembers it |
| LogoutJtis.JtiStorage.SweepExpired | bff/src/storage/in_memory.rs:171-175 | forgets exactly the tokens whose time has come |
| LogoutJtis.Run.RememberedSince | bff/src/storage/in_memory.rs:158-175 | an accepted token stays remembered until a sweep at its end or a next token of its name |
| LogoutJtis.Run.RepeatAcceptedIff | bff/src/server/api/backchannel_logout.rs:79-103 | the next token of an accepted one's name is let in if and only if the clock reading, or a sweep's, has reached the first one's end |
| LogoutJtis.Run.AcceptedApart | bff/src/server/api/backchannel_logout.rs:79-103 | two accepted tokens of one name lie at least as far apart as the first one's window |
| LogoutJtis.Run.AcceptedTwiceOnlyAcrossTheEnd | bff/src/server/api/backchannel_logout.rs:79-103 | one token accepted twice was verified again no later than its end and recorded again no earlier |
| LogoutJtis.AcceptedTwice | bff/src/storage/in_memory.rs:158-168 | a run that accepts one token twice, at the end of its window |
| Kratos.KratosAdmin.ScramblePassword | hooks/src/clients/kratos.rs:155-170 | success leaves a password nobody knows, and only for an identity that was active when read; any other is refused and left as it is |
| Kratos.KratosAdmin.DeleteCredential | hooks/src/clients/kratos.rs:190-215 | success leaves no credential of the type; a passkey that is not there is success and nothing is written |
| Kratos.KratosAdmin.ActiveSessions | hooks/src/clients/kratos.rs:218-230 | lists a page of 250 distinct live sessions, or all if there are fewer |
| Revocation.PurgeCredentials | hooks/src/server/api/revocation.rs:143-166 | reads the identity and asks for a new password, for the end of exactly the links it was told of, each once, and for every credential type to go, whatever becomes of the other steps; reports exactly the failed steps, in order; without one, and with no session alive or starting that could add anything, no link, no credential but recovery codes and no known password is left |
| Revocation.UnlinkAll | hooks/src/server/api/revocation.rs:155-159 | asks for the end of each link once, whatever becomes of the others, and reports exactly the failures |
| Revocation.DeleteAll | hooks/src/server/api/revocation.rs:160-164 | asks for the four credential types to go, whatever becomes of the others, and reports exactly the failures |
| Revocation.RevokeEach | hooks/src/server/api/revocation.rs:196-204 | asks for the end of every session it is given, in order, whatever becomes of the others, and says whether a call failed |
| Revocation.RoundShrinks | hooks/src/server/api/revocation.rs:184-205 | a round that revoked its whole page leaves none of the others, or at least 249 fewer |
| Revocation.NoOthersListed | hooks/src/server/api/revocation.rs:193-195 | a page showing only the kept session means no other is alive |
| Revocation.RevokePage | hooks/src/server/api/revocation.rs:185-204 | one round: lists a page and asks for the end of exactly the others on it; finds none, fails because a call failed, or shrinks the others |
| Revocation.RevokeKratosSessions | hooks/src/server/api/revocation.rs:172-209 | everyone on each listed page but the kept session is asked to end; success exactly when the last of at most 20 listings showed no other; with at most 4731 others and none starting, it succeeds if and only if no call fails |
| Revocation.RevokeInKratos | hooks/src/server/api/revocation.rs:116-135 | a whole purge, the rounds of ending the sessions and a whole purge again, whatever fails; reports the failed steps of both purges and, between them, that sessions are left; no failure means that no call failed, the last listing showed only the kept session, and the account is purged if that session is none that adds credentials |
| Revocation.SagaSparesTheKept | hooks/src/server/api/revocation.rs:69-79 | wherever Kratos' part is cut, the kept session has not been asked to end, by name or with all |
| Revocation.AskedIsABeginning | hooks/src/server/api/revocation.rs:74-79 | what was asked of Kratos is a beginning of a whole saga, wherever the time runs out, and all of it in time |
| Revocation.AskTheRest | hooks/src/server/api/revocation.rs:80-94 | asks Hydra twice and bff once, whatever becomes of the others, and reports exactly the failures, in order |
| Revocation.Revoke | hooks/src/server/api/revocation.rs:69-101 | in time, Kratos was asked for a whole saga; out of time, for a beginning of one, which is reported; never for the end of the kept session. Hydra and bff are asked in either case; success means every step succeeded in time, and then nothing the account was reached by before works |
| Template.Fill | login/src/i18n.rs:588-620 | the filling scanner gives the rendering of the template's pieces, or nothing |
| Template.Placeholders | login/src/i18n.rs:629-645 | the checking scanner gives the names of the template's pieces, or nothing |
| Template.PrintThenParse | login/src/i18n.rs:16-17 | any pieces written down in the language are read back one by one |
| Template.ParseIffReads | login/src/i18n.rs:588-645 | the pieces found are the only ones a template spells, lone closing braces included, and a template is refused exactly if it spells none |
| Template.RenderInOrder | login/src/i18n.rs:588-620 | pieces are filled in one after the other |
| Template.RenderOne | login/src/i18n.rs:593-617 | a character fills in as itself, a name as its text, digits, `true` or `false`, and not at all otherwise |
| Template.NamesInOrder | login/src/i18n.rs:629-645 | the names are listed in their order, repeated ones repeatedly |
| Template.FillingAName | login/src/i18n.rs:603-615 | a template that is a name alone lists it and fills in as its value |
| Template.Canonical | login/src/i18n.rs:588-645 | rewriting a template canonically changes neither what it fills to nor the names it lists |
| Template.ScannersAgree | login/src/i18n.rs:588-645 | filling succeeds if and only if the check does and every listed name has a scalar value |
| Template.OnlyListedNamesMatter | login/src/i18n.rs:588-645 | values of names the check does not list make no difference |
| Template.DoublingEscapes | login/src/i18n.rs:584-620 | doubling the braces of any text and filling it in gives the text back, and lists no name |
| Catalog.CheckTexts | login/src/i18n.rs:425-444 | passes exactly when every text is closed and uses only the names its key allows |
| Catalog.CheckKeys | login/src/i18n.rs:403-447 | passes exactly when every key is known and every text passes |
| Catalog.Load | login/src/i18n.rs:294-346 | loads exactly the directories whose files all pass, with distinct tags and a complete default, and then holds exactly those files |
| Catalog.Find | login/src/i18n.rs:556-581 | the visitor's language first, then the default, skipping texts that cannot be filled in |
| Catalog.Message | login/src/i18n.rs:511-525 | the message's own text, else the general one; on a loaded catalog never the empty string of the last resort |
| Catalog.GeneralTextIsNotListed | login/src/i18n.rs:41-83 | the table of context names does not list the general text, which may therefore use none |
| Catalog.KeyOfItsRow | login/src/i18n.rs:104-117 | a listed id has its own row's key, any other the general one |
| Catalog.NamesOfItsRow | login/src/i18n.rs:427-432 | a listed key may use its own row's names, any other none |
| Catalog.FileOkIff | login/src/i18n.rs:403-447 | exactly which files stop the loading, by tag, keys and the names their texts use |
| Catalog.LowerKeepsTags | login/src/i18n.rs:312-323 | tags are lowered letter by letter, which makes none better or worse |
| Catalog.DefaultIsComplete | login/src/i18n.rs:449-462 | the default language of a loaded catalog has every message, every label and the general text |
| Catalog.MessageOrder | login/src/i18n.rs:511-525 | the four texts a message may get, in their order |
| Catalog.MessageAlwaysFound | login/src/i18n.rs:511-525 | on a loaded catalog every id, language and context has a text, so the empty fallback is unreachable |
| Catalog.OwnTextIffValuesSent | login/src/i18n.rs:556-581 | the message's own text is given up if and only if each of its translations lacks a value |
| Catalog.AllValuesSentMeansOwnLanguage | login/src/i18n.rs:36-41 | when every name the key may use comes with a scalar, the visitor's own language answers if it has the key |
| ForwardedFor.ClientIp | common/src/rate_limit.rs:85-116 | the client is the address where the walk stops: everything nearer trusted, itself untrusted or nothing readable beyond |
| ForwardedFor.StopDecides | common/src/rate_limit.rs:85-116 | wherever the walk may stop, the address there is the client, for any choice of trusted addresses |
| ForwardedFor.StopIsUnique | common/src/rate_limit.rs:85-116 | there is one place to stop |
| ForwardedFor.LeftOfTheStopIsIgnored | common/src/rate_limit.rs:79-84 | entries left of where the walk stopped make no difference |
| ForwardedFor.MoreEntriesMatterOnlyToAnOpenWalk | common/src/rate_limit.rs:91-114 | otherwise the walk read everything and goes on from the address it reached |
| ForwardedFor.SpoofingIsUseless | common/src/rate_limit.rs:79-84 | behind trusted proxies that append what they see, a client is known by its own address whatever it sends |
| ForwardedFor.LinesReadAsOne | common/src/rate_limit.rs:71-77 | several header lines read as one with commas between them |
| ForwardedFor.SplitLosesNothing | common/src/rate_limit.rs:75 | the entries with commas between them are the line |
| ForwardedFor.AppendingToALineOrAddingOne | common/src/rate_limit.rs:79-84 | it makes no difference whether a proxy appends to the client's line or sends its own |
| ForwardedFor.SameBudgetIff | common/src/rate_limit.rs:128-133 | two clients share a budget if and only if they are one IPv4 address or in one IPv6 /64 |
| ForwardedFor.ClientIsCanonical | common/src/rate_limit.rs:91-99 | the client is never an IPv4-mapped address |
| ForwardedFor.CanonicalForm | common/src/rate_limit.rs:91 | an IPv4-mapped address becomes the IPv4 address of its last 32 bits, any other stays |
| ForwardedFor.NetIsABlock | common/src/rate_limit.rs:90 | a net contains exactly the block of its size around its base |
| ForwardedFor.LoadedMappedNet | bff/src/config.rs:499-508 | a net of IPv4-mapped addresses contains exactly the addresses that stand for those of the IPv4 net it is loaded as |
| ForwardedFor.LoadedKeepsTrustIff | bff/src/config.rs:484-508 | the loaded net contains the canonical form of every address of the written one if and only if that is not an IPv6 net wider than /96 around the IPv4-mapped addresses |
| ForwardedFor.LoadedAddsNothing | bff/src/config.rs:499-508 | every canonical address in a loaded net stands for an address of the net as written |
| ForwardedFor.LoadedNetsTrustTheSame | login/src/config.rs:190-214 | the canonical addresses a service trusts are those that stand for an address its configuration names |
| PercentEncoding.EncodedIsSafe | bff/src/server/cookie.rs:4-9 | an encoded value holds only unreserved ASCII characters and percent signs (section 2.1 of RFC 3986) |
| PercentEncoding.DecodeEncode | bff/src/server/cookie.rs:19 | decoding undoes encoding for all bytes |
| PercentEncoding.DecodesEscapes | bff/src/server/cookie.rs:19 | an escape is one byte, in hex digits of either case |
| PercentEncoding.DecodesAsItStands | bff/src/server/cookie.rs:19 | what is no escape is decoded as it stands |
| Cookie.PartNamesOneCookie | bff/src/server/cookie.rs:17-19 | a part with blanks around it gives its value to the cookie named before its first `=`, and to no other |
| Cookie.PartWithoutEqualsNamesNone | bff/src/server/cookie.rs:18 | a part without `=` names no cookie |
| Cookie.RoundTripAmongPairs | bff/src/server/cookie.rs:15-35 | any text set as a cookie is read back among any pairs of other names |
| Cookie.PrintedIsTheNumber | bff/src/server/cookie.rs:34 | the age is printed as the number it is |
| Cookie.CookieRoundTrip | bff/src/server/cookie.rs:15-35 | any text set as a cookie is read back from a header of section 4.2.1 of RFC 6265, among any other cookies |
| Cookie.SentTwiceIsRefused | bff/src/server/cookie.rs:11-23 | a name twice in the header line yields nothing |
| Cookie.LaterLinesAreIgnored | bff/src/server/cookie.rs:16 | two lines, each with the cookie once: the first one's value is read |
| Cookie.ReadIffHeldOnce | bff/src/server/cookie.rs:15-23 | a cookie is read if and only if the first line is readable and exactly one of its parts names it |
| Cookie.SentTwiceRefusedIff | bff/src/server/cookie.rs:11-23 | a cookie in two places of a request is refused if and only if the first line is unreadable or does not hold it exactly once; always, if there is one line |
| Cookie.ValueAddsNoAttributes | bff/src/server/cookie.rs:25-35 | no value can add or change an attribute: the parts of the header are the same for every value |
| Cookie.SetThenExtract | bff/src/server/cookie.rs:15-35 | what a browser sends back of a `Set-Cookie` value is read as the value that was set |

## Left out

- HTTP, routing, CORS, header copying, TLS, rate-limit buckets, page rendering and configuration: plumbing without state of its own.
- Signatures, JWT and JWKS parsing, hashing and random generation: library calls; tokens, ids and kids are opaque and new ones fresh, and `has_kid` is set membership.
- The steps of a login before its session is saved (state, code exchange, id token): they touch neither the store nor the locks. A login that ends the browser's previous session does so in a step of its own, as a logout does.
- The fairness and the queue order of the lock: any waiter of a free lock may be next.
- That a call to revoke a token succeeds: the program logs a failure and goes on, so the results about ended sessions say that Hydra is asked.
- Detached revocation tasks are never cancelled in the model; stopping the process is not modelled.
- What becomes at Hydra of a token that only a cancelled request knew: it is marked as abandoned, and nothing revokes it.
- Throttle: attempts are unbounded where the program counts in 32 bits; `ThrottleRate.CountsStayInRange` bounds them by the clock. Keys are opaque, in place of hashed identifiers.
- LoginThrottle.SelectLowest: a selection of this project's own stands in for the standard library's `select_nth_unstable_by_key`, whose contract it meets.
- The clock behind the time limits of the revocation: after how many steps the time for Kratos' part runs out is an input.
- Clocks are assumed not to go back.
- Jwks.WithdrawnKeysStop: a fetch is assumed to take no longer than a given time, which the program's HTTP timeout provides.
- Translator labels, field labels and the choice of language: the same lookups with simpler fallbacks; `accepted_tags` sorts by floating-point quality.
- Reading an `X-Forwarded-For` entry as an address, with its port and blanks, and decoding bytes as UTF-8: functions the model takes as parameters.
- The token hook's claims, webhooks, profile APIs, the registration and verification hooks: short case analyses.
