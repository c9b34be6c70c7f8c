/** Active-time tracking: on each authenticated request the middleware
    credits the gap since the previous request to the profile's active time
    when that gap is under an hour, and then records the request time as
    `last_seen` in the session. Times are whole microseconds. */
module Activity {
  import opened Common
  import opened Http

  const OneHour := 3600 * 1_000_000

  /** What the middleware reads and writes for one user: the session's
      `last_seen`, and the profile's active time (`None` when the user has
      no profile). */
  datatype Tracked = Tracked(lastSeen: Option<int>, activeTime: Option<int>)

  /** The request is credited: a signed-in user with a previous request
      less than an hour ago and a profile to credit. There is no lower
      bound on the gap. */
  predicate Credited(authenticated: bool, t: Tracked, now: int) {
    authenticated && t.lastSeen.Some? && now - t.lastSeen.value < OneHour && t.activeTime.Some?
  }

  function Track(authenticated: bool, t: Tracked, now: int): (r: Tracked)
    ensures !authenticated ==> r == t
    ensures authenticated ==> r.lastSeen == Some(now)
    ensures r.activeTime.Some? <==> t.activeTime.Some?
    ensures Credited(authenticated, t, now) ==>
      r.activeTime.value - t.activeTime.value == now - t.lastSeen.value
    ensures !Credited(authenticated, t, now) ==> r.activeTime == t.activeTime
  {
    if !authenticated then t
    else
      var credited :=
        if t.lastSeen.Some? && now - t.lastSeen.value < OneHour then
          match t.activeTime
          case Some(a) => Some(a + (now - t.lastSeen.value))
          case None => None
        else t.activeTime;
      Tracked(Some(now), credited)
  }

  /** A run of signed-in requests at the given times. */
  function Visits(t: Tracked, times: seq<int>): Tracked
    decreases |times|
  {
    if |times| == 0 then t else Visits(Track(true, t, times[0]), times[1..])
  }

  predicate NonDecreasing(times: seq<int>) {
    forall i, j :: 0 <= i <= j < |times| ==> times[i] <= times[j]
  }

  /** The gap between two requests that counts as activity. */
  function Gap(before: int, after: int): int {
    if after - before < OneHour then after - before else 0
  }

  /** The activity credited over `times` when the previous request was at
      `prev`: the sum of the consecutive gaps under an hour. */
  function Credit(prev: int, times: seq<int>): int
    decreases |times|
  {
    if |times| == 0 then 0 else Gap(prev, times[0]) + Credit(times[0], times[1..])
  }

  /** Over a run of requests by a user with a profile, the active time
      grows by exactly the sum of the gaps under an hour, and the last
      request's time is what stays in the session. */
  lemma {:induction false} VisitsAddCredit(lastSeen: int, active: int, times: seq<int>)
    ensures Visits(Tracked(Some(lastSeen), Some(active)), times).activeTime == Some(active + Credit(lastSeen, times))
    ensures |times| > 0 ==> Visits(Tracked(Some(lastSeen), Some(active)), times).lastSeen == Some(times[|times| - 1])
    decreases |times|
  {
    if |times| > 0 {
      var next := Track(true, Tracked(Some(lastSeen), Some(active)), times[0]);
      assert next == Tracked(Some(times[0]), Some(active + Gap(lastSeen, times[0])));
      VisitsAddCredit(times[0], active + Gap(lastSeen, times[0]), times[1..]);
    }
  }

  /** The first request of a session is never credited. */
  lemma FirstVisitCreditsNothing(active: Option<int>, now: int)
    ensures Track(true, Tracked(None, active), now) == Tracked(Some(now), active)
  {
  }

  /** With request times that never go backwards the credit lies between
      zero and the time the run spans. */
  lemma {:induction false} CreditBounds(prev: int, times: seq<int>)
    requires NonDecreasing(times) && (|times| > 0 ==> prev <= times[0])
    ensures 0 <= Credit(prev, times)
    ensures |times| > 0 ==> Credit(prev, times) <= times[|times| - 1] - prev
    decreases |times|
  {
    if |times| > 0 {
      var rest := times[1..];
      assert NonDecreasing(rest) by {
        forall i, j | 0 <= i <= j < |rest|
          ensures rest[i] <= rest[j]
        {
          assert rest[i] == times[i + 1] && rest[j] == times[j + 1];
        }
      }
      CreditBounds(times[0], rest);
      assert times[0] <= times[|times| - 1];
    }
  }

  /** Active time never decreases while request times never go backwards. */
  lemma ActiveTimeGrowsWithTime(lastSeen: int, active: int, times: seq<int>)
    requires NonDecreasing(times) && (|times| > 0 ==> lastSeen <= times[0])
    ensures var a := Visits(Tracked(Some(lastSeen), Some(active)), times).activeTime;
      a.Some? && a.value >= active
  {
    VisitsAddCredit(lastSeen, active, times);
    CreditBounds(lastSeen, times);
  }

  /** Without that condition the active time can shrink: a request stamped
      earlier than the previous one credits a negative gap. */
  lemma ClockGoingBackShrinksActiveTime()
    ensures Track(true, Tracked(Some(10), Some(100)), 4).activeTime == Some(94)
  {
  }

  /** The logout view. It requires a signed-in user: otherwise the
      permission check answers 401 before the view runs and the session is
      untouched. For a signed-in user `last_seen` is dropped before the
      refresh token is even read, so it is dropped whether or not the token
      turns out to be valid. */
  function LogoutSession(t: Tracked, authenticated: bool, tokenValid: bool): (r: (Reply, Tracked))
    ensures !authenticated ==> r == (Reply(StatusUnauthorized, NotAuthenticated), t)
    ensures authenticated ==> r.1.lastSeen.None? && r.1.activeTime == t.activeTime
    ensures r.0.status == StatusResetContent <==> authenticated && tokenValid
    ensures authenticated && !tokenValid ==> r.0 == Reply(StatusBadRequest, Failure("Invalid refresh token."))
  {
    if !authenticated then (Reply(StatusUnauthorized, NotAuthenticated), t)
    else
      var cleared := t.(lastSeen := None);
      if tokenValid then (Reply(StatusResetContent, Message("Logged out successfully.")), cleared)
      else (Reply(StatusBadRequest, Failure("Invalid refresh token.")), cleared)
  }

  /** After a signed-in user logs out the next request starts a new session
      and is not credited, however soon it comes. */
  lemma NoCreditAcrossLogout(t: Tracked, tokenValid: bool, now: int)
    ensures var after := LogoutSession(t, true, tokenValid).1;
      Track(true, after, now).activeTime == t.activeTime
  {
  }

  /** A refused logout leaves `last_seen` in place, so a request within the
      hour is still credited. */
  lemma RefusedLogoutKeepsCrediting(lastSeen: int, active: int, tokenValid: bool, now: int)
    requires now - lastSeen < OneHour
    ensures var after := LogoutSession(Tracked(Some(lastSeen), Some(active)), false, tokenValid).1;
      Track(true, after, now).activeTime == Some(active + (now - lastSeen))
  {
  }
}
