/** The cooldown on random-motto requests made by tagging the bot: one
    interval for everybody, and a longer one per user. */
module RateLimiter {
  import opened Common

  const MicrosPerMinute := 60_000_000

  /** Midnight, 1 January 1970: the time assumed for a request nobody made. */
  const Oldest := 0

  /** The time of the last granted request, and of each user's last
      granted request, in microseconds. */
  datatype Limiter = Limiter(last: Option<int>, users: map<nat, int>)

  const Fresh := Limiter(None, map[])

  function LastRandom(s: Limiter): int {
    s.last.GetOr(Oldest)
  }

  function LastFor(s: Limiter, user: nat): int {
    if user in s.users then s.users[user] else Oldest
  }

  /** `is_random_request_allowed`: granted only when both intervals have
      strictly passed; a grant records the time for everybody and for the
      user. */
  function Request(s: Limiter, user: nat, now: int, globalMinutes: int, userMinutes: int): (r: (bool, Limiter))
    ensures r.0 <==> LastRandom(s) + globalMinutes * MicrosPerMinute < now && LastFor(s, user) + userMinutes * MicrosPerMinute < now
    ensures r.0 ==> r.1.last == Some(now) && r.1.users == s.users[user := now]
    ensures !r.0 ==> r.1 == s
  {
    if LastRandom(s) + globalMinutes * MicrosPerMinute < now then
      if LastFor(s, user) + userMinutes * MicrosPerMinute < now then
        (true, Limiter(Some(now), s.users[user := now]))
      else (false, s)
    else (false, s)
  }

  /** While the shared interval runs, the answer does not depend on who
      asks or on what the per-user table holds. */
  lemma GlobalDenialIgnoresUsers(s: Limiter, users: map<nat, int>, a: nat, b: nat, now: int, globalMinutes: int, userMinutes: int)
    requires !(LastRandom(s) + globalMinutes * MicrosPerMinute < now)
    ensures Request(s, a, now, globalMinutes, userMinutes) == (false, s)
    ensures Request(s.(users := users), b, now, globalMinutes, userMinutes) == (false, s.(users := users))
  {
  }

  /** A grant changes only the shared time and the requester's time. */
  lemma GrantTouchesOnlyRequester(s: Limiter, user: nat, other: nat, now: int, globalMinutes: int, userMinutes: int)
    requires Request(s, user, now, globalMinutes, userMinutes).0
    requires other != user
    ensures LastFor(Request(s, user, now, globalMinutes, userMinutes).1, other) == LastFor(s, other)
    ensures LastFor(Request(s, user, now, globalMinutes, userMinutes).1, user) == now
  {
  }

  /** Two granted requests, by anybody, are more than the shared interval
      apart; two by the same user are more than the per-user interval
      apart. */
  lemma GrantsAreSpaced(s: Limiter, a: nat, b: nat, t1: int, t2: int, globalMinutes: int, userMinutes: int)
    requires Request(s, a, t1, globalMinutes, userMinutes).0
    requires Request(Request(s, a, t1, globalMinutes, userMinutes).1, b, t2, globalMinutes, userMinutes).0
    ensures t1 + globalMinutes * MicrosPerMinute < t2
    ensures a == b ==> t1 + userMinutes * MicrosPerMinute < t2
  {
    var s1 := Request(s, a, t1, globalMinutes, userMinutes).1;
    assert LastRandom(s1) == t1;
    if a == b {
      assert LastFor(s1, b) == t1;
    }
  }

  /** The first request, with non-negative intervals, is granted exactly
      when both intervals have passed since 1970. */
  lemma FirstRequest(user: nat, now: int, globalMinutes: int, userMinutes: int)
    requires 0 <= globalMinutes <= userMinutes
    ensures Request(Fresh, user, now, globalMinutes, userMinutes).0 <==> userMinutes * MicrosPerMinute < now
  {
  }
}
