/** Expiry of refresh-token sessions and password-reset tokens. */
module Sessions {
  import opened Timestamps

  class SessionStore {
    /** session id to expires_at */
    var sessions: map<string, string>

    constructor ()
      ensures sessions == map[]
    {
      sessions := map[];
    }

    method CreateSession(id: string, expiresAt: string)
      requires id !in sessions
      modifies this
      ensures sessions == old(sessions)[id := expiresAt]
    {
      sessions := sessions[id := expiresAt];
    }

    /** cleanup_expired: selects the rows with expires_at < now, then deletes them one by one. */
    method CleanupExpired(now: string) returns (count: nat)
      modifies this
      ensures sessions == Cleaned(old(sessions), now)
      ensures count + |sessions| == |old(sessions)|
    {
      var expired := set id | id in sessions && StrLess(sessions[id], now);
      count := |expired|;
      var left := expired;
      while left != {}
        invariant left <= expired
        invariant sessions == map id | id in old(sessions) && id !in expired - left :: old(sessions)[id]
        invariant |sessions| + count == |old(sessions)| + |left|
        decreases left
      {
        var id :| id in left;
        DeleteOne(sessions, id);
        sessions := sessions - {id};
        left := left - {id};
      }
      assert forall id :: id in sessions <==> id in Cleaned(old(sessions), now);
    }
  }

  lemma DeleteOne(sessions: map<string, string>, id: string)
    requires id in sessions
    ensures |sessions - {id}| + 1 == |sessions|
  {
    assert sessions.Keys == (sessions - {id}).Keys + {id};
  }

  /** What the stored texts mean: every expiry is a rendered moment. */
  ghost predicate Rendered(sessions: map<string, string>, moments: map<string, DateTime>) {
    && sessions.Keys == moments.Keys
    && forall id :: id in sessions ==> Valid(moments[id]) && sessions[id] == Render(moments[id])
  }

  function Cleaned(sessions: map<string, string>, now: string): map<string, string> {
    map id | id in sessions && !StrLess(sessions[id], now) :: sessions[id]
  }

  /** The clean-up deletes exactly the sessions that expired before the current minute of its own clock began. */
  lemma CleanupCutsAtMinuteStart(sessions: map<string, string>, moments: map<string, DateTime>, local: DateTime)
    requires Rendered(sessions, moments) && Valid(local)
    ensures forall id :: id in sessions ==>
              (id !in Cleaned(sessions, RenderMinute(local)) <==> Instant(moments[id]) < Instant(local.(second := 0)))
    ensures var left := Cleaned(sessions, RenderMinute(local));
            left.Keys <= sessions.Keys && forall id :: id in left ==> left[id] == sessions[id]
  {
    forall id | id in sessions
      ensures id !in Cleaned(sessions, RenderMinute(local)) <==> Instant(moments[id]) < Instant(local.(second := 0))
    {
      MinuteTextCutsAtMinuteStart(moments[id], local);
    }
  }

  // ---------------------------------------------------------------- local time against UTC expiries

  /** A clean-up at this moment, read on the local clock, keeps every session that has not expired. */
  ghost predicate Spares(sessions: map<string, string>, moments: map<string, DateTime>, utc: DateTime,
                         local: DateTime)
  {
    forall id :: id in sessions && id in moments && Instant(utc) <= Instant(moments[id])
                 ==> id in Cleaned(sessions, RenderMinute(local))
  }

  /** The local clock runs d seconds ahead of UTC, in which expiries are written. */
  ghost predicate Ahead(d: int, utc: DateTime, local: DateTime) {
    Valid(utc) && Valid(local) && Instant(local) == Instant(utc) + d
  }

  ghost predicate AlwaysSpares(d: int) {
    forall sessions, moments, utc, local ::
      Rendered(sessions, moments) && Ahead(d, utc, local) ==> Spares(sessions, moments, utc, local)
  }

  lemma BehindSpares(d: int, sessions: map<string, string>, moments: map<string, DateTime>, utc: DateTime,
                     local: DateTime)
    requires d <= 0 && Rendered(sessions, moments) && Ahead(d, utc, local)
    ensures Spares(sessions, moments, utc, local)
  {
    CleanupCutsAtMinuteStart(sessions, moments, local);
    assert Instant(local.(second := 0)) <= Instant(local);
  }

  /** d seconds before the second day of a year. */
  function BeforeMidnight(d: int, year: nat): DateTime
    requires 0 < d <= 86400
  {
    var t := 86400 - d;
    DateTime(year, 1, 1, t / 3600, t % 3600 / 60, t % 60)
  }

  lemma ClockAdds(t: nat)
    ensures t / 3600 * 3600 + t % 3600 / 60 * 60 + t % 60 == t
  {
    assert t % 3600 % 60 == t % 60;
  }

  lemma BeforeMidnightIs(d: int, year: nat)
    requires 0 < d <= 86400 && 1000 <= year <= 9999
    ensures Ahead(d, BeforeMidnight(d, year), DateTime(year, 1, 2, 0, 0, 0))
  {
    ClockAdds(86400 - d);
  }

  /** Ahead of UTC, the clean-up at local midnight deletes a session that expires only now. */
  lemma AheadDeletes(d: int, utc: DateTime, local: DateTime)
    requires d > 0 && Ahead(d, utc, local) && local.second == 0
    ensures !AlwaysSpares(d)
  {
    var sessions, moments := map["s" := Render(utc)], map["s" := utc];
    assert Rendered(sessions, moments);
    CleanupCutsAtMinuteStart(sessions, moments, local);
    assert "s" in sessions && "s" !in Cleaned(sessions, RenderMinute(local));
    assert !Spares(sessions, moments, utc, local);
  }

  /** The clean-up never deletes a session that has not expired exactly if local time is not ahead of UTC. */
  lemma SparesUnexpiredIff(d: int)
    requires d <= 86400
    ensures AlwaysSpares(d) <==> d <= 0
  {
    if d <= 0 {
      forall sessions, moments, utc, local | Rendered(sessions, moments) && Ahead(d, utc, local)
        ensures Spares(sessions, moments, utc, local)
      {
        BehindSpares(d, sessions, moments, utc, local);
      }
    } else {
      BeforeMidnightIs(d, 2024);
      AheadDeletes(d, BeforeMidnight(d, 2024), DateTime(2024, 1, 2, 0, 0, 0));
    }
  }

  /** On one clock an expired session outlives the clean-up exactly when it expired within the current minute. */
  lemma ExpiredSurvivorsIff(sessions: map<string, string>, moments: map<string, DateTime>, now: DateTime, id: string)
    requires Rendered(sessions, moments) && Valid(now) && id in sessions
    requires Instant(moments[id]) < Instant(now)
    ensures id in Cleaned(sessions, RenderMinute(now)) <==> SameMinute(moments[id], now)
  {
    MinuteTextCutsAtMinuteStart(moments[id], now);
    InstantOrder(moments[id], now);
    InstantOrder(moments[id], now.(second := 0));
    MinuteTrichotomy(moments[id], now);
  }

  /** reset_password refuses a token when its expiry text is smaller than the current time's. */
  predicate ResetExpired(expiresAt: string, now: string) { StrLess(expiresAt, now) }

  /** A reset token is usable up to and including the second in which it expires. */
  lemma ResetUsableIff(expires: DateTime, now: DateTime)
    requires Valid(expires) && Valid(now)
    ensures !ResetExpired(Render(expires), Render(now)) <==> Instant(now) <= Instant(expires)
  {
    TextOrderIsTimeOrder(expires, now);
  }
}
