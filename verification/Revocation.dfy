// Locking everybody else out of an account: the purge and the end of the sessions, against a Kratos
// that others use at the same time and that may fail any call.

/** Kratos as the hooks see it: an identity, and calls that may fail. */
module Kratos {
  import opened Wrappers
  import opened Sets

  type SessionRef = nat
  type Secret = nat
  type Link = nat

  datatype CredentialType = WebAuthn | Passkey | Totp | LookupSecret | Code

  /** What a purge deletes outright; the password is replaced and the social logins are unlinked. */
  const PURGED_CREDENTIAL_TYPES: seq<CredentialType> := [WebAuthn, Passkey, Totp, LookupSecret]

  /** How many sessions one listing shows at most. */
  const PAGE_SIZE: nat := 250

  datatype Identity = Identity(
    active: bool,
    password: Secret,
    known: set<Secret>,   // every password somebody may know
    links: set<Link>,     // social logins
    credentials: set<CredentialType>,
    sessions: set<SessionRef>)
  {
    /** Nothing anybody had before lets them back in. */
    predicate Purged() {
      links == {} && password !in known && credentials <= {Code}
    }
  }

  /**
   * What others may do between two calls, and what the calls themselves stay within. Credentials are
   * added and passwords set only through a live session, and never through one of `harmless`;
   * `noneStart` says that no session starts meanwhile.
   */
  ghost predicate Follows(noneStart: bool, harmless: set<SessionRef>, a: Identity, b: Identity) {
    && (noneStart ==> b.sessions <= a.sessions)
    && (noneStart && a.sessions <= harmless ==> Dwindles(a, b))
  }

  /** Nothing is added; a changed password is one nobody knows. */
  ghost predicate Dwindles(a: Identity, b: Identity) {
    && b.sessions <= a.sessions
    && b.links <= a.links
    && b.credentials <= a.credentials
    && b.known == a.known
    && (b.password == a.password || b.password !in b.known)
  }

  ghost predicate IsPage(page: seq<SessionRef>, sessions: set<SessionRef>) {
    && (forall i, j :: 0 <= i < j < |page| ==> page[i] != page[j])
    && (forall s :: s in page ==> s in sessions)
    && |page| == if |sessions| < 250 then |sessions| else 250
  }

  /** What the hooks ask of Kratos; where they act on the answer, the answer too, `None` for a failed call. */
  datatype Step =
    | ReadLinks(answer: Option<set<Link>>)
    | Scramble
    | Unlink(link: Link)
    | Delete(kind: CredentialType)
    | ListSessions(page: Option<seq<SessionRef>>)
    | EndOne(session: SessionRef)
    | EndAll

  /** Those of `steps` that there is time for. */
  function Within(steps: seq<Step>, deadline: Option<nat>): seq<Step> {
    if deadline.None? || |steps| <= deadline.value then steps else steps[..deadline.value + 1]
  }

  /**
   * Kratos during one revocation. Its time runs out during the step numbered `deadline`, which may still
   * take effect but is not answered; the later ones are not asked any more, which for the hooks that
   * would have asked them comes to the same as failing.
   */
  class KratosAdmin {
    const noneStart: bool
    const harmless: set<SessionRef>
    const deadline: Option<nat>
    var identity: Identity
    /** The steps so far, with those there was no time for. */
    var wanted: seq<Step>
    /** A call failed, or found the identity not active. */
    ghost var failed: bool
    /** The steps that failed, in their order. */
    ghost var faults: seq<Step>

    constructor (noneStart: bool, harmless: set<SessionRef>, deadline: Option<nat>, identity: Identity)
      ensures this.noneStart == noneStart && this.harmless == harmless && this.deadline == deadline
      ensures this.identity == identity && wanted == [] && !failed && faults == []
    {
      this.noneStart, this.harmless, this.deadline := noneStart, harmless, deadline;
      this.identity, wanted, failed, faults := identity, [], false, [];
    }

    ghost predicate Since(was: Identity)
      reads this
    {
      Follows(noneStart, harmless, was, identity)
    }

    /** The steps Kratos was asked for. */
    ghost function Asked(): seq<Step>
      reads this
    {
      Within(wanted, deadline)
    }

    predicate OutOfTime()
      reads this
    {
      deadline.Some? && |wanted| > deadline.value
    }

    /** The step under way, the last of `wanted`, is still asked. */
    predicate StillAsked()
      reads this
    {
      deadline.None? || |wanted| <= deadline.value + 1
    }

    /** Others act before a call arrives. */
    method Meanwhile()
      modifies this`identity
      ensures Since(old(identity))
    {
      var next: Identity := *;
      var sessionsOnlyEnd := next.sessions <= identity.sessions;
      var nothingAdded :=
        && next.links <= identity.links && next.credentials <= identity.credentials
        && next.known == identity.known && next.password == identity.password;
      if noneStart ==> sessionsOnlyEnd && (identity.sessions <= harmless ==> nothingAdded) {
        identity := next;
      }
    }

    /** How one call of the step under way goes: one that failed may have taken effect all the same. */
    method Goes() returns (done: bool, applied: bool)
      modifies this`identity, this`failed
      ensures Since(old(identity)) && failed == (old(failed) || !done)
      ensures (done ==> applied && !OutOfTime()) && (applied ==> StillAsked())
    {
      Meanwhile();
      done, applied := *, *;
      applied := (applied || done) && StillAsked();
      done := done && !OutOfTime();
      failed := failed || !done;
    }

    /** The identity as it is before a password is replaced or a passkey removed. */
    method GetIdentity() returns (seen: Option<Identity>)
      modifies this`identity, this`failed
      ensures Since(old(identity)) && failed == (old(failed) || seen.None?)
      ensures seen.Some? ==> seen.value == identity
    {
      Meanwhile();
      var answered: bool := *;
      seen := if answered && StillAsked() then Some(identity) else None;
      failed := failed || seen.None?;
    }

    /** The identity with its social logins. */
    method GetLinks() returns (links: Option<set<Link>>)
      modifies this
      ensures Since(old(identity)) && wanted == old(wanted) + [ReadLinks(links)] && failed == (old(failed) || links.None?)
      ensures faults == old(faults) + if links.None? then [ReadLinks(links)] else []
      ensures links.Some? ==> links.value == identity.links
    {
      Meanwhile();
      var answered: bool := *;
      links := if answered && (deadline.None? || |wanted| < deadline.value) then Some(identity.links) else None;
      wanted := wanted + [ReadLinks(links)];
      failed := failed || links.None?;
      faults := faults + if links.None? then [ReadLinks(links)] else [];
    }

    method PutRandomPassword() returns (done: bool)
      modifies this`identity, this`failed
      ensures Since(old(identity)) && failed == (old(failed) || !done)
      ensures done ==> identity.password !in identity.known
    {
      var applied: bool;
      done, applied := Goes();
      if applied {
        ghost var above := Above(identity.known);
        assert above !in identity.known;
        var secret :| secret !in identity.known;
        identity := identity.(password := secret);
      }
    }

    /** A link or credential that is not there is no failure. */
    method DeleteLink(link: Link) returns (done: bool)
      modifies this
      ensures Since(old(identity)) && wanted == old(wanted) + [Unlink(link)] && failed == (old(failed) || !done)
      ensures faults == old(faults) + if done then [] else [Unlink(link)]
      ensures done ==> link !in identity.links
    {
      wanted := wanted + [Unlink(link)];
      var applied: bool;
      done, applied := Goes();
      if applied {
        identity := identity.(links := identity.links - {link});
      }
      faults := faults + if done then [] else [Unlink(link)];
    }

    method Remove(kind: CredentialType) returns (done: bool)
      modifies this`identity, this`failed
      ensures Since(old(identity)) && failed == (old(failed) || !done)
      ensures done ==> kind !in identity.credentials
    {
      var applied: bool;
      done, applied := Goes();
      if applied {
        identity := identity.(credentials := identity.credentials - {kind});
      }
    }

    /** Some of the live sessions, as many as one listing shows. */
    method ActiveSessions() returns (listing: Option<seq<SessionRef>>)
      modifies this
      ensures Since(old(identity)) && wanted == old(wanted) + [ListSessions(listing)] && failed == (old(failed) || listing.None?)
      ensures faults == old(faults) + if listing.None? then [ListSessions(listing)] else []
      ensures listing.Some? ==> IsPage(listing.value, identity.sessions)
    {
      Meanwhile();
      var answered: bool := *;
      if answered && (deadline.None? || |wanted| < deadline.value) {
        var page := FirstPage(identity.sessions);
        listing := Some(page);
      } else {
        listing := None;
      }
      wanted := wanted + [ListSessions(listing)];
      failed := failed || listing.None?;
      faults := faults + if listing.None? then [ListSessions(listing)] else [];
    }

    method RevokeSession(s: SessionRef) returns (done: bool)
      modifies this
      ensures Since(old(identity)) && wanted == old(wanted) + [EndOne(s)] && failed == (old(failed) || !done)
      ensures faults == old(faults) + if done then [] else [EndOne(s)]
      ensures done ==> s !in identity.sessions
    {
      wanted := wanted + [EndOne(s)];
      var applied: bool;
      done, applied := Goes();
      if applied {
        identity := identity.(sessions := identity.sessions - {s});
      }
      faults := faults + if done then [] else [EndOne(s)];
    }

    method RevokeAllSessions() returns (done: bool)
      modifies this
      ensures Since(old(identity)) && wanted == old(wanted) + [EndAll] && failed == (old(failed) || !done)
      ensures faults == old(faults) + if done then [] else [EndAll]
      ensures done ==> identity.sessions == {}
    {
      wanted := wanted + [EndAll];
      var applied: bool;
      done, applied := Goes();
      if applied {
        identity := identity.(sessions := {});
      }
      faults := faults + if done then [] else [EndAll];
    }

    // ----- What the hooks make of these calls

    /** Replaces the password of an active identity with one nobody knows; no other is written to. */
    method ScramblePassword() returns (done: bool, ghost seen: Option<Identity>)
      modifies this
      ensures done ==> seen.Some? && seen.value.active
      ensures seen.Some? && !seen.value.active ==> !done && identity == seen.value
      ensures seen.None? ==> !done
      ensures Since(old(identity)) && wanted == old(wanted) + [Scramble] && failed == (old(failed) || !done)
      ensures faults == old(faults) + if done then [] else [Scramble]
      ensures done ==> identity.password !in identity.known
    {
      wanted := wanted + [Scramble];
      var found := GetIdentity();
      seen := found;
      if found.None? || !found.value.active {
        failed, faults := true, faults + [Scramble];
        return false, found;
      }
      done := PutRandomPassword();
      faults := faults + if done then [] else [Scramble];
    }

    /** Only passkeys are looked for first: one that is not there is left at that, and is no failure. */
    method DeleteCredential(kind: CredentialType) returns (done: bool, ghost seen: Option<Identity>)
      modifies this
      ensures kind == Passkey && seen.Some? && Passkey !in seen.value.credentials ==> done && identity == seen.value
      ensures kind == Passkey && seen.None? ==> !done
      ensures Since(old(identity)) && wanted == old(wanted) + [Delete(kind)] && failed == (old(failed) || !done)
      ensures faults == old(faults) + if done then [] else [Delete(kind)]
      ensures done ==> kind !in identity.credentials
    {
      wanted := wanted + [Delete(kind)];
      seen := None;
      if kind == Passkey {
        var found := GetIdentity();
        seen := found;
        if found.None? {
          faults := faults + [Delete(kind)];
          return false, found;
        }
        if Passkey !in found.value.credentials {
          return true, found;
        }
      }
      done := Remove(kind);
      faults := faults + if done then [] else [Delete(kind)];
    }
  }

  method FirstPage(sessions: set<SessionRef>) returns (page: seq<SessionRef>)
    ensures IsPage(page, sessions)
  {
    var rest := sessions;
    page := [];
    while |page| < PAGE_SIZE && rest != {}
      invariant rest <= sessions && |page| + |rest| == |sessions| && |page| <= PAGE_SIZE
      invariant forall i, j :: 0 <= i < j < |page| ==> page[i] != page[j]
      invariant forall s :: s in page ==> s in sessions && s !in rest
    {
      var s :| s in rest;
      rest := rest - {s};
      page := page + [s];
    }
  }
}

module Revocation {
  import opened Wrappers
  import opened Sets
  import opened Sequences
  import opened Kratos

  datatype Failure =
    | IdentityUnread
    | PasswordKept
    | LinkKept(link: Link)
    | CredentialKept(kind: CredentialType)
    | SessionsKept
    | GaveUp
    | ConsentSessionsKept
    | LoginSessionsKept
    | BffSessionsKept

  function Unlinks(links: seq<Link>): seq<Step> {
    seq(|links|, i requires 0 <= i < |links| => Unlink(links[i]))
  }

  function Deletes(kinds: seq<CredentialType>): seq<Step> {
    seq(|kinds|, i requires 0 <= i < |kinds| => Delete(kinds[i]))
  }

  /** The steps of a purge whose reading was answered with `answer`, unlinking in the order of `links`. */
  function PurgeSteps(answer: Option<set<Link>>, links: seq<Link>): seq<Step> {
    [ReadLinks(answer)]
    + (if answer.Some? then [Scramble] + Unlinks(links) else [])
    + Deletes([WebAuthn, Passkey, Totp, LookupSecret])
  }

  /** `links` lists what was answered, each link once. */
  ghost predicate ListsAnswer(links: seq<Link>, answer: Option<set<Link>>) {
    && (forall i, j :: 0 <= i < j < |links| ==> links[i] != links[j])
    && (answer.Some? ==> forall l :: l in links <==> l in answer.value)
  }

  function Report(step: Step): Failure {
    match step
    case ReadLinks(_) => IdentityUnread
    case Scramble => PasswordKept
    case Unlink(link) => LinkKept(link)
    case Delete(kind) => CredentialKept(kind)
    case _ => SessionsKept
  }

  function Reports(steps: seq<Step>): seq<Failure> {
    seq(|steps|, i requires 0 <= i < |steps| => Report(steps[i]))
  }

  /** What is reported is what failed since `before`, in that order. */
  ghost predicate AreReported(before: seq<Step>, now: seq<Step>, failures: seq<Failure>) {
    before <= now && failures == Reports(now[|before|..])
  }

  lemma ReportsAdd(before: seq<Step>, now: seq<Step>, one: seq<Failure>, more: seq<Step>)
    requires AreReported(before, now, one)
    ensures AreReported(before, now + more, one + Reports(more))
  {
    assert (now + more)[|before|..] == now[|before|..] + more;
  }

  lemma ReportsChain(a: seq<Step>, b: seq<Step>, c: seq<Step>, one: seq<Failure>, two: seq<Failure>)
    requires AreReported(a, b, one) && AreReported(b, c, two)
    ensures AreReported(a, c, one + two)
  {
    assert c == b + c[|b|..];
    ReportsAdd(a, b, one, c[|b|..]);
  }

  /** No failure of one step keeps the purge from the next. */
  method PurgeCredentials(kratos: KratosAdmin)
      returns (failures: seq<Failure>, ghost answer: Option<set<Link>>, ghost links: seq<Link>)
    modifies kratos
    ensures kratos.Since(old(kratos.identity))
    ensures kratos.wanted == old(kratos.wanted) + PurgeSteps(answer, links) && ListsAnswer(links, answer)
    ensures kratos.failed <==> old(kratos.failed) || failures != []
    ensures AreReported(old(kratos.faults), kratos.faults, failures)
    ensures failures == [] && kratos.noneStart && old(kratos.identity).sessions <= kratos.harmless ==> kratos.identity.Purged()
  {
    ghost var quiet := kratos.noneStart && kratos.identity.sessions <= kratos.harmless;
    failures, links := [], [];
    var seen := kratos.GetLinks();
    answer := seen;
    if seen.Some? {
      var scrambled, _ := kratos.ScramblePassword();
      if !scrambled {
        failures := failures + [PasswordKept];
      }
      ghost var scrambledBy := kratos.faults;
      var kept;
      kept, links := UnlinkAll(kratos, seen.value);
      ReportsChain(old(kratos.faults), scrambledBy, kratos.faults, failures, kept);
      failures := failures + kept;
    } else {
      failures := failures + [IdentityUnread];
    }
    ghost var sofar := kratos.wanted;
    assert sofar == old(kratos.wanted) + ([ReadLinks(answer)] + if answer.Some? then [Scramble] + Unlinks(links) else []);
    ghost var unlinkedBy := kratos.faults;
    var kept := DeleteAll(kratos);
    ReportsChain(old(kratos.faults), unlinkedBy, kratos.faults, failures, kept);
    failures := failures + kept;
  }

  /** Deletes every type that a purge deletes, whatever becomes of the others. */
  method DeleteAll(kratos: KratosAdmin) returns (failures: seq<Failure>)
    modifies kratos
    ensures kratos.Since(old(kratos.identity))
    ensures kratos.wanted == old(kratos.wanted) + Deletes([WebAuthn, Passkey, Totp, LookupSecret])
    ensures kratos.failed <==> old(kratos.failed) || failures != []
    ensures AreReported(old(kratos.faults), kratos.faults, failures)
    ensures failures == [] && kratos.noneStart && old(kratos.identity).sessions <= kratos.harmless ==>
      && Kept(old(kratos.identity), kratos.identity) && kratos.identity.links <= old(kratos.identity).links
      && kratos.identity.credentials <= {Code}
  {
    ghost var quiet := kratos.noneStart && kratos.identity.sessions <= kratos.harmless;
    failures := [];
    for i := 0 to |PURGED_CREDENTIAL_TYPES|
      invariant kratos.Since(old(kratos.identity))
      invariant kratos.wanted == old(kratos.wanted) + Deletes(PURGED_CREDENTIAL_TYPES[..i])
      invariant kratos.failed <==> old(kratos.failed) || failures != []
      invariant AreReported(old(kratos.faults), kratos.faults, failures)
      invariant failures == [] && quiet ==> forall c :: c in PURGED_CREDENTIAL_TYPES[..i] ==> c !in kratos.identity.credentials
    {
      ghost var faults := kratos.faults;
      var deleted, _ := kratos.DeleteCredential(PURGED_CREDENTIAL_TYPES[i]);
      ReportsAdd(old(kratos.faults), faults, failures, if deleted then [] else [Delete(PURGED_CREDENTIAL_TYPES[i])]);
      if !deleted {
        failures := failures + [CredentialKept(PURGED_CREDENTIAL_TYPES[i])];
      }
    }
    assert PURGED_CREDENTIAL_TYPES[..|PURGED_CREDENTIAL_TYPES|] == PURGED_CREDENTIAL_TYPES;
    OnlyCodeIsSpared();
  }

  lemma OnlyCodeIsSpared()
    ensures forall c: CredentialType :: c == Code || c in PURGED_CREDENTIAL_TYPES
  {
    var all := PURGED_CREDENTIAL_TYPES;
    assert all[0] == WebAuthn && all[1] == Passkey && all[2] == Totp && all[3] == LookupSecret;
  }

  /** Unlinks each of `links`, whatever becomes of the others. */
  method UnlinkAll(kratos: KratosAdmin, links: set<Link>) returns (failures: seq<Failure>, ghost unlinked: seq<Link>)
    modifies kratos
    ensures kratos.Since(old(kratos.identity))
    ensures kratos.wanted == old(kratos.wanted) + Unlinks(unlinked) && ListsAnswer(unlinked, Some(links))
    ensures kratos.failed <==> old(kratos.failed) || failures != []
    ensures AreReported(old(kratos.faults), kratos.faults, failures)
    ensures failures == [] && kratos.noneStart && old(kratos.identity).sessions <= kratos.harmless ==>
      old(kratos.identity).links <= links ==> kratos.identity.links == {} && Kept(old(kratos.identity), kratos.identity)
  {
    ghost var quiet := kratos.noneStart && kratos.identity.sessions <= kratos.harmless && kratos.identity.links <= links;
    failures, unlinked := [], [];
    var rest := links;
    while rest != {}
      invariant rest <= links && kratos.Since(old(kratos.identity))
      invariant kratos.wanted == old(kratos.wanted) + Unlinks(unlinked) && ListsAnswer(unlinked, Some(links - rest))
      invariant kratos.failed <==> old(kratos.failed) || failures != []
      invariant AreReported(old(kratos.faults), kratos.faults, failures)
      invariant failures == [] && quiet ==> kratos.identity.links <= rest
    {
      var link :| link in rest;
      rest := rest - {link};
      ghost var faults := kratos.faults;
      var deleted := kratos.DeleteLink(link);
      ReportsAdd(old(kratos.faults), faults, failures, if deleted then [] else [Unlink(link)]);
      unlinked := unlinked + [link];
      if !deleted {
        failures := failures + [LinkKept(link)];
      }
    }
  }

  /** A password nobody knew is still one nobody knows. */
  ghost predicate Kept(a: Identity, b: Identity) {
    a.password !in a.known ==> b.password !in b.known
  }

  /** After so many listings it gives up. */
  const MAX_SESSION_ROUNDS: nat := 20

  function Listed(page: seq<SessionRef>): set<SessionRef> {
    set x | x in page
  }

  /** How many of `n` other sessions may be left by one round without a failure. */
  function LeftAfterRound(n: nat): nat {
    if n < PAGE_SIZE then 0 else n - (PAGE_SIZE - 1)
  }

  lemma RoundShrinks(page: seq<SessionRef>, before: set<SessionRef>, after: set<SessionRef>, keep: SessionRef)
    requires IsPage(page, before) && after <= before
    requires forall x :: x in page && x != keep ==> x !in after
    ensures |after - {keep}| <= LeftAfterRound(|before - {keep}|)
  {
    var listed := Listed(page);
    ListedSize(page);
    SetSizes(listed, before, keep);
    SubsetSize(after - {keep}, (before - {keep}) - (listed - {keep}));
    if |before| <= PAGE_SIZE {
      SameSize(listed, before);
      assert after - {keep} == {};
    }
  }

  lemma NoOthersListed(page: seq<SessionRef>, sessions: set<SessionRef>, keep: SessionRef)
    requires IsPage(page, sessions)
    requires forall x :: x in page ==> x == keep
    ensures sessions <= {keep}
  {
    ListedSize(page);
    SubsetSize(Listed(page), {keep});
    SameSize(Listed(page), sessions);
  }

  lemma {:induction false} ListedSize(page: seq<SessionRef>)
    requires forall i, j :: 0 <= i < j < |page| ==> page[i] != page[j]
    ensures |Listed(page)| == |page|
  {
    if page != [] {
      ListedSize(page[1..]);
      assert page == [page[0]] + page[1..];
      assert page[0] !in page[1..];
      assert Listed(page) == {page[0]} + Listed(page[1..]);
    }
  }

  lemma SameSize(a: set<SessionRef>, b: set<SessionRef>)
    requires a <= b && |a| == |b|
    ensures a == b
  {
    assert a + (b - a) == b;
  }

  lemma SetSizes(listed: set<SessionRef>, before: set<SessionRef>, keep: SessionRef)
    requires listed <= before
    ensures |listed - {keep}| >= |listed| - 1 && (keep !in before ==> |listed - {keep}| == |listed|)
    ensures |before - {keep}| >= |before| - 1
    ensures |(before - {keep}) - (listed - {keep})| == |before - {keep}| - |listed - {keep}|
  {
    if keep in listed {
      assert |listed - {keep}| == |listed| - 1;
    } else {
      assert listed - {keep} == listed;
    }
    if keep !in before {
      assert before - {keep} == before;
    }
    assert listed - {keep} <= before - {keep};
    assert (before - {keep}) - (listed - {keep}) + (listed - {keep}) == before - {keep};
  }

  function Ends(sessions: seq<SessionRef>): seq<Step> {
    seq(|sessions|, i requires 0 <= i < |sessions| => EndOne(sessions[i]))
  }

  /** `page` without `keep`. */
  function OthersOn(page: seq<SessionRef>, keep: SessionRef): seq<SessionRef> {
    if page == [] then []
    else
      var front, last := page[..|page| - 1], page[|page| - 1];
      OthersOn(front, keep) + if last == keep then [] else [last]
  }

  lemma {:induction false} OthersOnAre(page: seq<SessionRef>, keep: SessionRef)
    ensures forall x :: x in OthersOn(page, keep) <==> x in page && x != keep
  {
    if page != [] {
      OthersOnAre(page[..|page| - 1], keep);
      assert page == page[..|page| - 1] + [page[|page| - 1]];
    }
  }

  /** A round that was shown `page`: everyone on it but `keep` is to go. */
  function RoundSteps(page: Option<seq<SessionRef>>, keep: SessionRef): seq<Step> {
    [ListSessions(page)] + if page.Some? then Ends(OthersOn(page.value, keep)) else []
  }

  function RoundsSteps(pages: seq<Option<seq<SessionRef>>>, keep: SessionRef): seq<Step> {
    if pages == [] then []
    else RoundsSteps(pages[..|pages| - 1], keep) + RoundSteps(pages[|pages| - 1], keep)
  }

  predicate ShowsOthers(page: Option<seq<SessionRef>>, keep: SessionRef) {
    page.Some? && OthersOn(page.value, keep) != []
  }

  predicate ShowsNoOther(page: Option<seq<SessionRef>>, keep: SessionRef) {
    page.Some? && OthersOn(page.value, keep) == []
  }

  /** The pages of a whole run of rounds: at least one, and a next one only after others were shown. */
  ghost predicate AreRounds(pages: seq<Option<seq<SessionRef>>>, keep: SessionRef) {
    1 <= |pages| <= 20 && AllShowOthers(pages[..|pages| - 1], keep)
  }

  ghost predicate AllShowOthers(pages: seq<Option<seq<SessionRef>>>, keep: SessionRef) {
    forall i :: 0 <= i < |pages| ==> ShowsOthers(pages[i], keep)
  }

  /** Ending the sessions: all at once without one to keep, else round by round everyone but that one. */
  function EndingSteps(pages: seq<Option<seq<SessionRef>>>, keep: Option<SessionRef>): seq<Step> {
    if keep.None? then [EndAll] else RoundsSteps(pages, keep.value)
  }

  /** Revokes each session of `others`; says whether every call succeeded. */
  method RevokeEach(kratos: KratosAdmin, others: seq<SessionRef>) returns (allDone: bool)
    modifies kratos
    ensures kratos.Since(old(kratos.identity))
    ensures old(kratos.faults) <= kratos.faults
    ensures kratos.wanted == old(kratos.wanted) + Ends(others)
    ensures kratos.failed <==> old(kratos.failed) || !allDone
    ensures allDone && kratos.noneStart ==> forall x :: x in others ==> x !in kratos.identity.sessions
  {
    allDone := true;
    for i := 0 to |others|
      invariant kratos.Since(old(kratos.identity))
      invariant old(kratos.faults) <= kratos.faults
      invariant kratos.wanted == old(kratos.wanted) + Ends(others[..i])
      invariant kratos.failed <==> old(kratos.failed) || !allDone
      invariant allDone && kratos.noneStart ==> forall x :: x in others[..i] ==> x !in kratos.identity.sessions
    {
      assert others[..i + 1] == others[..i] + [others[i]];
      var done := kratos.RevokeSession(others[i]);
      allDone := allDone && done;
    }
    assert others[..|others|] == others;
  }

  /** `page` without `keep`. */
  method Others(page: seq<SessionRef>, keep: SessionRef) returns (others: seq<SessionRef>)
    ensures others == OthersOn(page, keep)
  {
    others := [];
    for i := 0 to |page|
      invariant others == OthersOn(page[..i], keep)
    {
      assert page[..i + 1][..i] == page[..i];
      if page[i] != keep {
        others := others + [page[i]];
      }
    }
    assert page[..|page|] == page;
  }

  datatype Round = NoneLeft | Failed | Revoked

  /** Lists a page and revokes everyone on it but `keep`. */
  method RevokePage(kratos: KratosAdmin, keep: SessionRef) returns (round: Round, ghost page: Option<seq<SessionRef>>)
    modifies kratos
    ensures kratos.Since(old(kratos.identity))
    ensures old(kratos.faults) <= kratos.faults
    ensures kratos.wanted == old(kratos.wanted) + RoundSteps(page, keep)
    ensures kratos.failed <==> old(kratos.failed) || round.Failed?
    ensures round.NoneLeft? <==> ShowsNoOther(page, keep)
    ensures round.Revoked? ==> ShowsOthers(page, keep)
    ensures round.NoneLeft? ==> kratos.identity.sessions <= {keep}
    ensures kratos.noneStart && round.Revoked? ==>
      && |old(kratos.identity).sessions - {keep}| > 0
      && |kratos.identity.sessions - {keep}| <= LeftAfterRound(|old(kratos.identity).sessions - {keep}|)
  {
    var listing := kratos.ActiveSessions();
    page := listing;
    if listing.None? {
      return Failed, listing;
    }
    ghost var before := kratos.identity.sessions;
    var others := Others(listing.value, keep);
    OthersOnAre(listing.value, keep);
    if others == [] {
      assert kratos.wanted == old(kratos.wanted) + RoundSteps(page, keep);
      NoOthersListed(listing.value, before, keep);
      return NoneLeft, listing;
    }
    assert others[0] in others;
    var allDone := RevokeEach(kratos, others);
    assert kratos.wanted == old(kratos.wanted) + RoundSteps(page, keep);
    if !allDone {
      return Failed, listing;
    }
    if kratos.noneStart {
      RoundShrinks(listing.value, before, kratos.identity.sessions, keep);
      SubsetSize(before - {keep}, old(kratos.identity).sessions - {keep});
      SubsetSize({others[0]}, old(kratos.identity).sessions - {keep});
    }
    return Revoked, listing;
  }

  /** The rounds are sure to get through the identity's sessions. */
  ghost predicate RoundsSuffice(noneStart: bool, identity: Identity, keep: Option<SessionRef>) {
    keep.Some? ==> noneStart && |identity.sessions - {keep.value}| <= 4731
  }

  datatype SessionsResult = AllEnded | CallFailed | RoundsUsedUp

  /**
   * Ends every session but `keep`, which is never named. Success means that the last listing showed no
   * other. With at most 4731 others and none starting, only a failed call can keep it
   * from succeeding; with more, it gives up after the last round.
   */
  method RevokeKratosSessions(kratos: KratosAdmin, keep: Option<SessionRef>)
      returns (result: SessionsResult, ghost pages: seq<Option<seq<SessionRef>>>)
    modifies kratos
    ensures kratos.Since(old(kratos.identity))
    ensures old(kratos.faults) <= kratos.faults
    ensures result.AllEnded? ==> kratos.identity.sessions <= if keep.Some? then {keep.value} else {}
    ensures kratos.wanted == old(kratos.wanted) + EndingSteps(pages, keep)
    ensures keep.Some? ==> AreRounds(pages, keep.value) && (result.AllEnded? <==> NobodyElse(pages, keep))
    ensures result.RoundsUsedUp? ==> keep.Some? && |pages| == 20
    ensures kratos.failed <==> old(kratos.failed) || result.CallFailed?
    ensures RoundsSuffice(kratos.noneStart, old(kratos.identity), keep) ==> !result.RoundsUsedUp?
  {
    if keep.None? {
      var done := kratos.RevokeAllSessions();
      return if done then AllEnded else CallFailed, [];
    }
    result, pages := RevokeAllBut(kratos, keep.value);
  }

  /** How many of `most` other sessions may be left by so many rounds without a failure. */
  function LeftAfter(most: nat, rounds: nat): nat {
    if most < rounds * (PAGE_SIZE - 1) then 0 else most - rounds * (PAGE_SIZE - 1)
  }

  lemma OneRoundMore(most: nat, rounds: nat, before: nat, after: nat)
    requires 0 < before <= LeftAfter(most, rounds) && after <= LeftAfterRound(before)
    ensures after <= LeftAfter(most, rounds + 1)
    ensures rounds + 1 == MAX_SESSION_ROUNDS ==> most > 4731
  {
  }

  method RevokeAllBut(kratos: KratosAdmin, keep: SessionRef)
      returns (result: SessionsResult, ghost pages: seq<Option<seq<SessionRef>>>)
    modifies kratos
    ensures kratos.Since(old(kratos.identity))
    ensures old(kratos.faults) <= kratos.faults
    ensures result.AllEnded? ==> kratos.identity.sessions <= {keep}
    ensures kratos.wanted == old(kratos.wanted) + RoundsSteps(pages, keep) && AreRounds(pages, keep)
    ensures result.AllEnded? <==> ShowsNoOther(pages[|pages| - 1], keep)
    ensures result.RoundsUsedUp? ==> |pages| == 20
    ensures kratos.failed <==> old(kratos.failed) || result.CallFailed?
    ensures kratos.noneStart && |old(kratos.identity).sessions - {keep}| <= 4731 ==> !result.RoundsUsedUp?
  {
    ghost var most := |old(kratos.identity).sessions - {keep}|;
    pages := [];
    for round := 0 to MAX_SESSION_ROUNDS
      invariant kratos.Since(old(kratos.identity))
      invariant old(kratos.faults) <= kratos.faults
      invariant |pages| == round && AllShowOthers(pages, keep) && (round > 0 ==> AreRounds(pages, keep))
      invariant kratos.wanted == old(kratos.wanted) + RoundsSteps(pages, keep)
      invariant kratos.failed <==> old(kratos.failed)
      invariant kratos.noneStart ==> |kratos.identity.sessions - {keep}| <= LeftAfter(most, round)
      invariant kratos.noneStart && round == MAX_SESSION_ROUNDS ==> most > 4731
    {
      ghost var others := |kratos.identity.sessions - {keep}|;
      var done, page := RevokePage(kratos, keep);
      if kratos.noneStart && done.Revoked? {
        OneRoundMore(most, round, others, |kratos.identity.sessions - {keep}|);
      }
      RoundsPush(old(kratos.wanted), pages, page, keep);
      pages := pages + [page];
      if done.NoneLeft? {
        return AllEnded, pages;
      }
      if done.Failed? {
        return CallFailed, pages;
      }
    }
    return RoundsUsedUp, pages;
  }

  lemma RoundsPush(start: seq<Step>, pages: seq<Option<seq<SessionRef>>>, page: Option<seq<SessionRef>>, keep: SessionRef)
    requires |pages| < MAX_SESSION_ROUNDS && AllShowOthers(pages, keep)
    ensures start + RoundsSteps(pages, keep) + RoundSteps(page, keep) == start + RoundsSteps(pages + [page], keep)
    ensures AreRounds(pages + [page], keep)
    ensures ShowsOthers(page, keep) ==> AllShowOthers(pages + [page], keep)
  {
    assert (pages + [page])[..|pages|] == pages;
    ConcatAssociates(start, RoundsSteps(pages, keep), RoundSteps(page, keep));
  }

  ghost predicate IsPurge(steps: seq<Step>, purge: bool) {
    if purge then exists answer, links :: ListsAnswer(links, answer) && steps == PurgeSteps(answer, links)
    else steps == []
  }

  /** A whole purge, the end of the sessions over the listed `pages`, and a whole purge again. */
  ghost predicate IsSagaOver(steps: seq<Step>, pages: seq<Option<seq<SessionRef>>>, keep: Option<SessionRef>, purge: bool) {
    && (keep.Some? ==> AreRounds(pages, keep.value))
    && exists first, second ::
         IsPurge(first, purge) && IsPurge(second, purge) && steps == first + EndingSteps(pages, keep) + second
  }

  ghost predicate IsSaga(steps: seq<Step>, keep: Option<SessionRef>, purge: bool) {
    exists pages :: IsSagaOver(steps, pages, keep, purge)
  }

  /** The last listing showed nobody but the session to keep. */
  ghost predicate NobodyElse(pages: seq<Option<seq<SessionRef>>>, keep: Option<SessionRef>) {
    keep.Some? ==> pages != [] && ShowsNoOther(pages[|pages| - 1], keep.value)
  }

  /** Without a session that could add anything to the account once the others are gone. */
  ghost predicate KeptIsHarmless(keep: Option<SessionRef>, harmless: set<SessionRef>) {
    keep.Some? ==> keep.value in harmless
  }

  /** The purge, the end of the sessions, and the purge again: meanwhile a credential may have come from a session that has ended since. */
  method RevokeInKratos(kratos: KratosAdmin, keep: Option<SessionRef>, purge: bool)
      returns (failures: seq<Failure>, ghost pages: seq<Option<seq<SessionRef>>>, ghost first: seq<Step>, ghost second: seq<Step>)
    modifies kratos
    ensures kratos.Since(old(kratos.identity))
    ensures old(kratos.faults) + first <= kratos.faults && EndsWith(kratos.faults, second)
    ensures ReportsSaga(failures, first, second, keep, pages)
    ensures old(kratos.wanted) <= kratos.wanted && IsSagaOver(kratos.wanted[|old(kratos.wanted)|..], pages, keep, purge)
    ensures failures == [] ==> kratos.failed == old(kratos.failed) && NobodyElse(pages, keep)
    ensures !kratos.failed && RoundsSuffice(kratos.noneStart, old(kratos.identity), keep) ==> failures == []
    ensures failures == [] && kratos.noneStart ==>
      kratos.identity.sessions <= if keep.Some? then {keep.value} else {}
    ensures failures == [] && kratos.noneStart && KeptIsHarmless(keep, kratos.harmless) && purge ==> kratos.identity.Purged()
  {
    ghost var before := kratos.wanted;
    failures := Purge(kratos, purge);
    first := kratos.faults[|old(kratos.faults)|..];
    ghost var purged := kratos.wanted;
    FewerStill(kratos, old(kratos.identity), keep);
    var result;
    result, pages := RevokeKratosSessions(kratos, keep);
    if !result.AllEnded? {
      failures := failures + [SessionsKept];
    }
    ghost var left := kratos.wanted;
    assert left[|purged|..] == EndingSteps(pages, keep);
    ghost var faults := kratos.faults;
    var more := Purge(kratos, purge);
    second := kratos.faults[|faults|..];
    failures := failures + more;
    ThreeParts(before, purged, left, kratos.wanted);
  }

  /** The failed steps of both purges, and between them that sessions are left: with one to keep, if the last listing showed another. */
  ghost predicate ReportsSaga(failures: seq<Failure>, first: seq<Step>, second: seq<Step>,
                              keep: Option<SessionRef>, pages: seq<Option<seq<SessionRef>>>)
  {
    var allEnded := failures == Reports(first) + Reports(second);
    && (allEnded || failures == Reports(first) + [SessionsKept] + Reports(second))
    && (keep.Some? ==> (allEnded <==> NobodyElse(pages, keep)))
  }

  predicate EndsWith(steps: seq<Step>, last: seq<Step>) {
    |last| <= |steps| && steps[|steps| - |last|..] == last
  }

  /** The purge, if asked for. */
  method Purge(kratos: KratosAdmin, purge: bool) returns (failures: seq<Failure>)
    modifies kratos
    ensures kratos.Since(old(kratos.identity))
    ensures kratos.failed <==> old(kratos.failed) || failures != []
    ensures AreReported(old(kratos.faults), kratos.faults, failures)
    ensures old(kratos.wanted) <= kratos.wanted && IsPurge(kratos.wanted[|old(kratos.wanted)|..], purge)
    ensures failures == [] && purge && kratos.noneStart && old(kratos.identity).sessions <= kratos.harmless ==>
      kratos.identity.Purged()
  {
    failures := [];
    if purge {
      ghost var answer, links;
      failures, answer, links := PurgeCredentials(kratos);
      assert kratos.wanted[|old(kratos.wanted)|..] == PurgeSteps(answer, links);
    }
  }

  lemma FewerStill(kratos: KratosAdmin, before: Identity, keep: Option<SessionRef>)
    requires kratos.Since(before)
    ensures RoundsSuffice(kratos.noneStart, before, keep) ==> RoundsSuffice(kratos.noneStart, kratos.identity, keep)
  {
    if keep.Some? && kratos.noneStart {
      SubsetSize(kratos.identity.sessions - {keep.value}, before.sessions - {keep.value});
    }
  }

  lemma ThreeParts(a: seq<Step>, b: seq<Step>, c: seq<Step>, d: seq<Step>)
    requires a <= b <= c <= d
    ensures a <= d && d[|a|..] == b[|a|..] + c[|b|..] + d[|c|..]
  {
  }

  // ----- Out of time

  /** The beginning of a saga, or all of it. */
  ghost predicate IsCutSaga(steps: seq<Step>, keep: Option<SessionRef>, purge: bool) {
    exists rest :: IsSaga(steps + rest, keep, purge)
  }

  /** Wherever it is cut, the kept session is not among those ended. */
  lemma SagaSparesTheKept(steps: seq<Step>, keep: SessionRef, purge: bool)
    requires IsCutSaga(steps, Some(keep), purge)
    ensures EndOne(keep) !in steps && EndAll !in steps
  {
    var rest :| IsSaga(steps + rest, Some(keep), purge);
    var pages :| IsSagaOver(steps + rest, pages, Some(keep), purge);
    var first, second :|
      IsPurge(first, purge) && IsPurge(second, purge) && steps + rest == first + EndingSteps(pages, Some(keep)) + second;
    SagaPartsSpareTheKept(first, pages, second, keep, purge);
    assert forall s :: s in steps ==> s in steps + rest;
  }

  lemma SagaPartsSpareTheKept(first: seq<Step>, pages: seq<Option<seq<SessionRef>>>, second: seq<Step>,
                              keep: SessionRef, purge: bool)
    requires IsPurge(first, purge) && IsPurge(second, purge)
    ensures var all := first + EndingSteps(pages, Some(keep)) + second;
      EndOne(keep) !in all && EndAll !in all
  {
    PurgeEndsNothing(first, purge);
    PurgeEndsNothing(second, purge);
    RoundsSpareTheKept(pages, keep);
  }

  lemma PurgeEndsNothing(steps: seq<Step>, purge: bool)
    requires IsPurge(steps, purge)
    ensures forall s :: s in steps ==> !s.EndOne? && !s.EndAll?
  {
  }

  lemma {:induction false} RoundsSpareTheKept(pages: seq<Option<seq<SessionRef>>>, keep: SessionRef)
    ensures forall s :: s in RoundsSteps(pages, keep) ==> s != EndOne(keep) && s != EndAll
  {
    if pages != [] {
      RoundsSpareTheKept(pages[..|pages| - 1], keep);
      var page := pages[|pages| - 1];
      if page.Some? {
        OthersOnAre(page.value, keep);
        assert forall i :: 0 <= i < |OthersOn(page.value, keep)| ==> OthersOn(page.value, keep)[i] in OthersOn(page.value, keep);
      }
    }
  }

  /** What was asked of a saga is a beginning of it, all of it in time. */
  lemma AskedIsABeginning(before: seq<Step>, wanted: seq<Step>, deadline: Option<nat>, keep: Option<SessionRef>, purge: bool)
    requires before <= wanted && IsSaga(wanted[|before|..], keep, purge)
    ensures var was, now := Within(before, deadline), Within(wanted, deadline);
      && was <= now && IsCutSaga(now[|was|..], keep, purge)
      && (deadline.None? || |wanted| <= deadline.value ==> now[|was|..] == wanted[|before|..])
  {
    var was, now := Within(before, deadline), Within(wanted, deadline);
    WithinGrows(before, wanted, deadline);
    BeginningIsCut(wanted[|before|..], |now| - |was|, keep, purge);
  }

  lemma WithinGrows(before: seq<Step>, wanted: seq<Step>, deadline: Option<nat>)
    requires before <= wanted
    ensures var was, now := Within(before, deadline), Within(wanted, deadline);
      && was <= now && |now| - |was| <= |wanted| - |before|
      && now[|was|..] == wanted[|before|..][..|now| - |was|]
      && (deadline.None? || |wanted| <= deadline.value ==> was == before && now == wanted)
  {
  }

  lemma BeginningIsCut(steps: seq<Step>, n: nat, keep: Option<SessionRef>, purge: bool)
    requires IsSaga(steps, keep, purge) && n <= |steps|
    ensures IsCutSaga(steps[..n], keep, purge)
  {
    assert steps[..n] + steps[n..] == steps;
  }

  // ----- Past Kratos

  datatype Upstream = ConsentSessions | LoginSessions | Bff

  /** One of the calls past Kratos, and what came of it in its share of the time. */
  datatype Attempt = Attempt(upstream: Upstream, done: bool)

  /** Hydra and bff, which the hooks ask together. */
  class Upstreams {
    ghost var attempts: seq<Attempt>

    constructor ()
      ensures attempts == []
    {
      attempts := [];
    }

    method Ask(upstream: Upstream) returns (done: bool)
      modifies this
      ensures attempts == old(attempts) + [Attempt(upstream, done)]
    {
      done := *;
      attempts := attempts + [Attempt(upstream, done)];
    }
  }

  function FailureOf(upstream: Upstream): Failure {
    match upstream
    case ConsentSessions => ConsentSessionsKept
    case LoginSessions => LoginSessionsKept
    case Bff => BffSessionsKept
  }

  /** The failures among `attempts`, in their order. */
  function Reported(attempts: seq<Attempt>): (failures: seq<Failure>)
    ensures failures == [] <==> forall i :: 0 <= i < |attempts| ==> attempts[i].done
  {
    if attempts == [] then []
    else (if attempts[0].done then [] else [FailureOf(attempts[0].upstream)]) + Reported(attempts[1..])
  }

  ghost predicate AllAsked(attempts: seq<Attempt>) {
    && |attempts| == 3
    && attempts[0].upstream == ConsentSessions && attempts[1].upstream == LoginSessions && attempts[2].upstream == Bff
  }

  /** Asks all three, whatever becomes of the others. */
  method AskTheRest(others: Upstreams) returns (failures: seq<Failure>, ghost attempts: seq<Attempt>)
    modifies others
    ensures others.attempts == old(others.attempts) + attempts && AllAsked(attempts)
    ensures failures == Reported(attempts)
    ensures ConsentSessionsKept in failures <==> !attempts[0].done
    ensures LoginSessionsKept in failures <==> !attempts[1].done
    ensures BffSessionsKept in failures <==> !attempts[2].done
  {
    var upstreams := [ConsentSessions, LoginSessions, Bff];
    failures, attempts := [], [];
    for i := 0 to |upstreams|
      invariant others.attempts == old(others.attempts) + attempts
      invariant |attempts| == i && forall j :: 0 <= j < i ==> attempts[j].upstream == upstreams[j]
      invariant failures == Reported(attempts)
    {
      var done := others.Ask(upstreams[i]);
      ReportedPush(attempts, Attempt(upstreams[i], done));
      attempts := attempts + [Attempt(upstreams[i], done)];
      if !done {
        failures := failures + [FailureOf(upstreams[i])];
      }
    }
    EachIsReported(attempts);
  }

  lemma EachIsReported(attempts: seq<Attempt>)
    requires AllAsked(attempts)
    ensures var failures := Reported(attempts);
      && (ConsentSessionsKept in failures <==> !attempts[0].done)
      && (LoginSessionsKept in failures <==> !attempts[1].done)
      && (BffSessionsKept in failures <==> !attempts[2].done)
  {
    assert attempts[2..][0] == attempts[2] && attempts[2..][1..] == [];
    assert Reported(attempts[2..]) == if attempts[2].done then [] else [BffSessionsKept];
    assert attempts[1..][0] == attempts[1] && attempts[1..][1..] == attempts[2..];
    assert Reported(attempts[1..]) == (if attempts[1].done then [] else [LoginSessionsKept]) + Reported(attempts[2..]);
    assert Reported(attempts) == (if attempts[0].done then [] else [ConsentSessionsKept]) + Reported(attempts[1..]);
  }

  lemma {:induction false} ReportedPush(attempts: seq<Attempt>, last: Attempt)
    ensures Reported(attempts + [last]) == Reported(attempts) + if last.done then [] else [FailureOf(last.upstream)]
  {
    if attempts != [] {
      ReportedPush(attempts[1..], last);
      assert (attempts + [last])[1..] == attempts[1..] + [last];
    }
  }

  /**
   * Kratos' part, then Hydra and bff, whatever becomes of Kratos' part. Success means that every step
   * succeeded in time, and then nothing the account was reached by before works any more.
   */
  method Revoke(kratos: KratosAdmin, others: Upstreams, keep: Option<SessionRef>, purge: bool)
      returns (failures: seq<Failure>, ghost inKratos: seq<Failure>, ghost first: seq<Step>, ghost second: seq<Step>,
               ghost pages: seq<Option<seq<SessionRef>>>, ghost attempts: seq<Attempt>)
    modifies kratos, others
    ensures kratos.Since(old(kratos.identity)) && old(kratos.Asked()) <= kratos.Asked()
    ensures var steps := kratos.Asked()[|old(kratos.Asked())|..];
      && IsCutSaga(steps, keep, purge) && (!kratos.OutOfTime() ==> IsSagaOver(steps, pages, keep, purge))
      && (keep.Some? ==> EndOne(keep.value) !in steps && EndAll !in steps)
    ensures others.attempts == old(others.attempts) + attempts && AllAsked(attempts)
    ensures failures == inKratos + Reported(attempts)
    ensures if kratos.OutOfTime() then inKratos == [GaveUp]
            else ReportsSaga(inKratos, first, second, keep, pages)
                 && old(kratos.faults) + first <= kratos.faults && EndsWith(kratos.faults, second)
    ensures inKratos == [] ==> kratos.failed == old(kratos.failed) && NobodyElse(pages, keep)
    ensures !kratos.OutOfTime() && !kratos.failed && RoundsSuffice(kratos.noneStart, old(kratos.identity), keep) ==> inKratos == []
    ensures failures == [] && kratos.noneStart ==>
      && kratos.identity.sessions <= (if keep.Some? then {keep.value} else {})
      && (KeptIsHarmless(keep, kratos.harmless) && purge ==> kratos.identity.Purged())
  {
    failures, pages, first, second := RevokeInKratos(kratos, keep, purge);
    AskedIsABeginning(old(kratos.wanted), kratos.wanted, kratos.deadline, keep, purge);
    if keep.Some? {
      SagaSparesTheKept(kratos.Asked()[|old(kratos.Asked())|..], keep.value, purge);
    }
    if kratos.OutOfTime() {
      failures := [GaveUp];
    }
    inKratos := failures;
    var more;
    more, attempts := AskTheRest(others);
    failures := failures + more;
  }
}
