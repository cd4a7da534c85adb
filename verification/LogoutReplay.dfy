// Back-channel logout tokens: the claims check, the memory of used tokens, and how the two compose.

module LogoutToken {
  import opened Clock
  import opened Wrappers
  import opened Session

  /** Past this age a logout token is refused. */
  const MAX_AGE: Duration := 10 * MINUTE
  /** By how much the two clocks may disagree. */
  const LEEWAY: Duration := 60 * SECOND

  datatype Claim = Absent | NotText | Text(text: string)

  /** The claims the check looks at; `iat` is `None` unless it is a usable number of seconds. */
  datatype Claims = Claims(
    iat: Option<int>,
    isLogoutEvent: bool,
    hasNonce: bool,
    sub: Claim,
    sid: Claim,
    jti: Claim)
  {
    predicate IssuedInTheFuture(now: Time)
      requires iat.Some?
    {
      iat.value * SECOND > now + LEEWAY
    }

    predicate Stale(now: Time)
      requires iat.Some?
    {
      iat.value * SECOND < now - MAX_AGE - LEEWAY
    }
  }

  datatype LogoutTokenError =
    | MissingIssuedAt
    | IssuedTooLate
    | TooOld
    | NotALogoutEvent
    | HasNonce
    | SubjectNotAUuid
    | NoSubjectOrSession
    | MissingJti

  datatype LogoutClaims = LogoutClaims(target: Selector, jti: string, replayUntil: Time)

  function NonEmpty(claim: Claim): Option<string> {
    if claim.Text? && claim.text != "" then Some(claim.text) else None
  }

  function CheckClaims(claims: Claims, now: Time, parseUuid: string -> Option<UserId>): Result<LogoutClaims, LogoutTokenError> {
    if claims.iat.None? then Err(MissingIssuedAt)
    else if claims.IssuedInTheFuture(now) then Err(IssuedTooLate)
    else if claims.Stale(now) then Err(TooOld)
    else if !claims.isLogoutEvent then Err(NotALogoutEvent)
    else if claims.hasNonce then Err(HasNonce)
    else
      var sub, sid := NonEmpty(claims.sub), NonEmpty(claims.sid);
      if sub.Some? && parseUuid(sub.value).None? then Err(SubjectNotAUuid)
      else if sub.None? && sid.None? then Err(NoSubjectOrSession)
      else if NonEmpty(claims.jti).None? then Err(MissingJti)
      else
        var target :=
          if sub.None? then OfLogin(sid.value)
          else if sid.Some? then OfUserLogin(parseUuid(sub.value).value, sid.value)
          else OfUser(parseUuid(sub.value).value);
        Ok(LogoutClaims(target, NonEmpty(claims.jti).value, claims.iat.value * SECOND + MAX_AGE + LEEWAY))
  }

  /** An accepted token is inside its window, and is remembered exactly until its age alone would refuse it. */
  lemma AcceptedInsideWindow(claims: Claims, now: Time, parseUuid: string -> Option<UserId>)
    requires CheckClaims(claims, now, parseUuid).Ok?
    ensures var until := CheckClaims(claims, now, parseUuid).value.replayUntil;
      && now <= until <= now + 720 * SECOND
      && forall later: Time :: now <= later ==>
           (CheckClaims(claims, later, parseUuid) == CheckClaims(claims, now, parseUuid) <==> later <= until)
           && (CheckClaims(claims, later, parseUuid) == Err(TooOld) <==> later > until)
  {
  }

  predicate Named(claim: Claim) {
    claim.Text? && claim.text != ""
  }

  /**
   * A token is accepted exactly if it was issued at most a minute ahead and at most eleven minutes ago,
   * says that it is a logout, carries no nonce, names a user that can be read, or a login and no user,
   * and has a name of its own; that name is held back until eleven minutes after its issue.
   */
  lemma AcceptedIff(claims: Claims, now: Time, parseUuid: string -> Option<UserId>)
    ensures CheckClaims(claims, now, parseUuid).Ok? <==>
      && claims.iat.Some?
      && claims.iat.value * SECOND <= now + 60 * SECOND
      && now <= claims.iat.value * SECOND + 660 * SECOND
      && claims.isLogoutEvent && !claims.hasNonce
      && (if Named(claims.sub) then parseUuid(claims.sub.text).Some? else Named(claims.sid))
      && Named(claims.jti)
    ensures CheckClaims(claims, now, parseUuid).Ok? ==>
      && CheckClaims(claims, now, parseUuid).value.jti == claims.jti.text
      && CheckClaims(claims, now, parseUuid).value.replayUntil == claims.iat.value * SECOND + 660 * SECOND
  {
  }

  /** A refusal names a fault that the token has. */
  lemma RefusedForAFault(claims: Claims, now: Time, parseUuid: string -> Option<UserId>)
    requires CheckClaims(claims, now, parseUuid).Err?
    ensures match CheckClaims(claims, now, parseUuid).error
      case MissingIssuedAt => claims.iat.None?
      case IssuedTooLate => claims.iat.Some? && claims.iat.value * SECOND > now + 60 * SECOND
      case TooOld => claims.iat.Some? && claims.iat.value * SECOND + 660 * SECOND < now
      case NotALogoutEvent => !claims.isLogoutEvent
      case HasNonce => claims.hasNonce
      case SubjectNotAUuid => Named(claims.sub) && parseUuid(claims.sub.text).None?
      case NoSubjectOrSession => !Named(claims.sub) && !Named(claims.sid)
      case MissingJti => !Named(claims.jti)
  {
  }

  /** It ends exactly the sessions of its user and login, with those of unknown login where it names both. */
  lemma TargetIsNamed(claims: Claims, now: Time, parseUuid: string -> Option<UserId>, session: SessionData)
    requires CheckClaims(claims, now, parseUuid).Ok?
    ensures CheckClaims(claims, now, parseUuid).value.target.Matches(session) <==>
      && (Named(claims.sub) ==> parseUuid(claims.sub.text) == Some(session.user))
      && (Named(claims.sid) ==>
            session.sid == Some(claims.sid.text) || (session.sid.None? && Named(claims.sub)))
  {
  }
}

module LogoutJtis {
  import opened Clock
  import opened Wrappers
  import opened Session
  import opened LogoutToken

  type Used = map<string, Time>

  predicate Remembered(used: Used, jti: string, read: Time) {
    jti in used && used[jti] > read
  }

  function Recorded(used: Used, jti: string, until: Time, read: Time): Used {
    if Remembered(used, jti, read) then used else used[jti := until]
  }

  function Swept(used: Used, read: Time): Used {
    map j | j in used && used[j] > read :: used[j]
  }

  class JtiStorage {
    var used: Used

    constructor ()
      ensures used == map[]
    {
      used := map[];
    }

    /** Lets a name in and holds it back from then to `until`. */
    method Record(jti: string, until: Time, read: Time) returns (accepted: bool)
      modifies this
      ensures used == Recorded(old(used), jti, until, read)
      ensures accepted <==> !Remembered(old(used), jti, read)
      ensures accepted ==> jti in used && used[jti] == until
    {
      if jti in used && used[jti] > read {
        return false;
      }
      used := used[jti := until];
      return true;
    }

    method SweepExpired(read: Time)
      modifies this
      ensures used == Swept(old(used), read)
    {
      var kept: Used := map[];
      var rest := used.Keys;
      while rest != {}
        invariant rest <= used.Keys && used == old(used)
        invariant kept == map j | j in used && j !in rest && used[j] > read :: used[j]
      {
        var jti :| jti in rest;
        rest := rest - {jti};
        if used[jti] > read {
          kept := kept[jti := used[jti]];
        }
      }
      used := kept;
    }
  }

  // ----- Whole runs

  /**
   * A logout verifies its token at `verified`, reads the clock at `read`, and reaches the store at `at`;
   * a sweep reads the clock at `read` and reaches the store at `at`.
   */
  datatype Event =
    | Logout(claims: Claims, verified: Time, read: Time, at: Time)
    | Sweep(read: Time, at: Time)

  datatype Run = Run(stores: seq<Used>, events: seq<Event>, parseUuid: string -> Option<UserId>)
  {
    /** What the verified token of the `i`th event says. */
    function Token(i: nat): LogoutClaims
      requires i < |events| && events[i].Logout?
      requires CheckClaims(events[i].claims, events[i].verified, parseUuid).Ok?
    {
      CheckClaims(events[i].claims, events[i].verified, parseUuid).value
    }

    predicate Verified(i: nat)
      requires i < |events|
    {
      events[i].Logout? && CheckClaims(events[i].claims, events[i].verified, parseUuid).Ok?
    }

    predicate Accepted(i: nat)
      requires i < |events| < |stores|
    {
      Verified(i) && !Remembered(stores[i], Token(i).jti, events[i].read)
    }

    predicate AcceptedAs(i: nat, jti: string)
      requires i < |events| < |stores|
    {
      Accepted(i) && Token(i).jti == jti
    }

    ghost predicate Step(i: nat)
      requires i < |events| < |stores|
    {
      && (i > 0 ==> events[i - 1].at <= events[i].at)
      && events[i].read <= events[i].at
      && (events[i].Logout? ==> events[i].verified <= events[i].read)
      && stores[i + 1] ==
           if events[i].Sweep? then Swept(stores[i], events[i].read)
           else if Verified(i) then Recorded(stores[i], Token(i).jti, Token(i).replayUntil, events[i].read)
           else stores[i]
    }

    ghost predicate Valid() {
      && |stores| == |events| + 1 && stores[0] == map[]
      && forall i :: 0 <= i < |events| ==> Step(i)
    }

    /** A sweep between `i` and `j` whose clock had reached `until`. */
    ghost predicate SweptBetween(i: nat, j: nat, until: Time) {
      exists k :: i < k < j && k < |events| && events[k].Sweep? && events[k].read >= until
    }

    ghost predicate FirstSince(i: nat, j: nat, jti: string)
      requires j <= |events| < |stores|
    {
      forall k :: i < k < j ==> !AcceptedAs(k, jti)
    }

    /** Until a next token of its name is accepted, an accepted one stays remembered, but for sweeps at its end. */
    lemma {:induction false} RememberedSince(i: nat, j: nat)
      requires Valid() && i < j <= |events| && Accepted(i)
      requires FirstSince(i, j, Token(i).jti)
      ensures var jti, until := Token(i).jti, Token(i).replayUntil;
        if SweptBetween(i, j, until) then jti !in stores[j] else jti in stores[j] && stores[j][jti] == until
    {
      var jti, until := Token(i).jti, Token(i).replayUntil;
      if j == i + 1 {
        assert Step(i);
      } else {
        RememberedSince(i, j - 1);
        assert Step(j - 1) && !AcceptedAs(j - 1, jti);
        if SweptBetween(i, j - 1, until) {
          assert SweptBetween(i, j, until);
        } else if SweptBetween(i, j, until) {
          assert events[j - 1].Sweep? && events[j - 1].read >= until;
        } else if events[j - 1].Sweep? {
          assert events[j - 1].read < until;
        }
      }
    }

    lemma {:induction false} ClockForward(i: nat, j: nat)
      requires Valid() && i <= j < |events|
      ensures events[i].at <= events[j].at
    {
      if i < j {
        ClockForward(i, j - 1);
        assert Step(j);
      }
    }

    /**
     * Exactly when the next token of an accepted one's name is let in: when the reading of the clock has
     * reached the end of its window, or a sweep's reading has.
     */
    lemma RepeatAcceptedIff(i: nat, j: nat)
      requires Valid() && i < j < |events| && Accepted(i)
      requires Verified(j) && Token(j).jti == Token(i).jti && FirstSince(i, j, Token(i).jti)
      ensures Accepted(j) <==>
        events[j].read >= Token(i).replayUntil || SweptBetween(i, j, Token(i).replayUntil)
    {
      RememberedSince(i, j);
    }

    /** Two accepted tokens of one name lie at least as far apart as the first one's window. */
    lemma {:induction false} AcceptedApart(i: nat, j: nat)
      requires Valid() && i < j < |events| && Accepted(i) && Accepted(j) && Token(i).jti == Token(j).jti
      ensures events[j].at >= Token(i).replayUntil
      decreases j - i
    {
      var jti := Token(i).jti;
      if k :| i < k < j && AcceptedAs(k, jti) {
        AcceptedApart(i, k);
        ClockForward(k, j);
      } else {
        RepeatAcceptedIff(i, j);
        assert Step(j);
        if SweptBetween(i, j, Token(i).replayUntil) {
          var k :| i < k < j && events[k].Sweep? && events[k].read >= Token(i).replayUntil;
          assert Step(k);
          ClockForward(k, j);
        }
      }
    }

    /**
     * One token is accepted twice only across the end of its window: the repeat was verified no later,
     * and reached the store no earlier.
     */
    lemma AcceptedTwiceOnlyAcrossTheEnd(i: nat, j: nat)
      requires Valid() && i < j < |events| && Accepted(i) && Accepted(j)
      requires events[i].claims == events[j].claims
      ensures Token(j) == Token(i)
      ensures events[j].verified <= Token(i).replayUntil <= events[j].at
    {
      AcceptedInsideWindow(events[i].claims, events[i].verified, parseUuid);
      AcceptedInsideWindow(events[j].claims, events[j].verified, parseUuid);
      AcceptedApart(i, j);
    }
  }

  /** "A token is never accepted twice" is false: here is a run that accepts one twice, at the very end of its window. */
  lemma AcceptedTwice(parseUuid: string -> Option<UserId>) returns (run: Run)
    ensures run.Valid() && |run.events| == 2 && run.Accepted(0) && run.Accepted(1)
    ensures run.events[0].claims == run.events[1].claims
  {
    var claims := Claims(Some(0), true, false, Absent, Text("s"), Text("j"));
    var end := MAX_AGE + LEEWAY;
    var used: Used := map["j" := end];
    run := Run([map[], used, used], [Logout(claims, 0, 0, 0), Logout(claims, end, end, end)], parseUuid);
    assert run.Token(0).replayUntil == end && run.Token(1).replayUntil == end;
    assert run.Step(0) && run.Step(1);
    assert used["j" := end] == used;
  }
}
