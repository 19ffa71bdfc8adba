/** The in-memory request throttle: one counter per (client address, route)
    pair, reset one hour after the first request of its window, with
    opportunistic eviction of windows that have already closed. Time is in
    integer seconds and every clock reading is a parameter. */
module RateLimiting {
  import opened Common

  /** Length of one counting window: one hour. */
  const WINDOW: int := HOUR

  /** Route names and per-hour ceilings used by the four throttled endpoint groups. */
  const REGISTER_ROUTE: string := "register"
  const LOGIN_ROUTE: string := "login"
  const REFRESH_ROUTE: string := "refresh"
  const RECOVERY_ROUTE: string := "password_recovery"
  const RATE_LIMIT_REGISTER: int := 2
  const RATE_LIMIT_REFRESH: int := 4
  const RATE_LIMIT_LOGIN: int := 6
  const RATE_LIMIT_PASSWORD_RECOVERY: int := 12

  /** One entry of the limiter's table. */
  datatype RateRecord = RateRecord(count: int, resetAt: int)

  /** What a check reports; `retryAfter` is present only when the call is denied. */
  datatype RateInfo = RateInfo(remaining: int, resetAt: int, retryAfter: Option<int>)

  datatype Verdict = Verdict(allowed: bool, info: RateInfo)

  /** What `get_info` reports: the stored count and window end, or 0 and no end. */
  datatype RateView = RateView(count: int, resetAt: Option<int>)

  type Table = map<string, RateRecord>

  /** The outcome of one check: the verdict and the table afterwards. */
  datatype Step = Step(verdict: Verdict, table: Table)

  /** The two clock readings of one check: the one cleanup takes, then the one the decision takes. */
  datatype Tick = Tick(cleanAt: int, at: int)

  /** The client address a check is keyed on; a request without a client counts as "unknown". */
  function ClientIp(client: Option<string>): (ip: string)
    ensures client.Some? ==> ip == client.value
    ensures client.None? ==> ip == "unknown"
  {
    if client.Some? then client.value else "unknown"
  }

  /** The key of the (ip, route) pair: the text "ip:route" that the source
      digests with SHA-256. The digest is taken to be collision-free, so the
      key is modelled by the digested text itself. */
  function Identifier(ip: string, route: string): string
  {
    ip + ":" + route
  }

  /** For route names without a colon (all four configured routes), distinct
      (ip, route) pairs have distinct keys: the route is everything after the
      last colon. */
  lemma IdentifierInjective(ip1: string, route1: string, ip2: string, route2: string)
    requires ':' !in route1 && ':' !in route2
    requires Identifier(ip1, route1) == Identifier(ip2, route2)
    ensures ip1 == ip2 && route1 == route2
  {
    var s := Identifier(ip1, route1);
    assert forall k :: |ip1| < k < |s| ==> s[k] == route1[k - |ip1| - 1];
    assert forall k :: |ip2| < k < |s| ==> s[k] == route2[k - |ip2| - 1];
    assert s[|ip1|] == ':' && s[|ip2|] == ':';
    assert |ip1| == |ip2|;
    assert ip1 == s[..|ip1|] && ip2 == s[..|ip2|];
    assert route1 == s[|ip1| + 1..] && route2 == s[|ip2| + 1..];
  }

  /** Two clients on the same route never share a key, whatever the route name. */
  lemma IdentifierInjectiveOnRoute(ip1: string, ip2: string, route: string)
    requires Identifier(ip1, route) == Identifier(ip2, route)
    ensures ip1 == ip2
  {
    var s := Identifier(ip1, route);
    assert |ip1| == |ip2|;
    assert ip1 == s[..|ip1|] && ip2 == s[..|ip2|];
  }

  /** The table without the records whose window closed strictly before `now`. */
  function Unexpired(t: Table, now: int): Table
  {
    map k | k in t && t[k].resetAt >= now :: t[k]
  }

  /** The decision taken on an already cleaned table, in the order the source tests: no record,
      window over, ceiling reached, otherwise count the call. */
  function Decide(t: Table, id: string, now: int, maxRequests: int): Step
  {
    if id !in t || now >= t[id].resetAt then
      Step(Verdict(true, RateInfo(maxRequests - 1, now + WINDOW, None)), t[id := RateRecord(1, now + WINDOW)])
    else if t[id].count >= maxRequests then
      Step(Verdict(false, RateInfo(0, t[id].resetAt, Some(t[id].resetAt - now))), t)
    else
      var counted := t[id].(count := t[id].count + 1);
      Step(Verdict(true, RateInfo(maxRequests - counted.count, counted.resetAt, None)), t[id := counted])
  }

  /** One call of `check_rate_limit`: cleanup at `tick.cleanAt`, then the decision at `tick.at`. */
  function Check(t: Table, ip: string, route: string, maxRequests: int, tick: Tick): Step
  {
    Decide(Unexpired(t, tick.cleanAt), Identifier(ip, route), tick.at, maxRequests)
  }

  /** The verdicts of successive checks by one client on one route. */
  function RunChecks(t: Table, ip: string, route: string, maxRequests: int, ticks: seq<Tick>): (vs: seq<Verdict>)
    ensures |vs| == |ticks|
    decreases |ticks|
  {
    if ticks == [] then []
    else
      var s := Check(t, ip, route, maxRequests, ticks[0]);
      [s.verdict] + RunChecks(s.table, ip, route, maxRequests, ticks[1..])
  }

  /** Every stored count of the route's clients lies between 1 and the route's ceiling. */
  ghost predicate CountsWithin(t: Table, route: string, maxRequests: int)
  {
    forall ip :: Identifier(ip, route) in t ==> 1 <= t[Identifier(ip, route)].count <= maxRequests
  }

  /** Every stored window was opened no later than `clock`. */
  ghost predicate IssuedBy(t: Table, clock: int)
  {
    forall k :: k in t ==> t[k].resetAt <= clock + WINDOW
  }

  /** A first call from an identifier without a record is allowed, opens a one-hour
      window with count 1, and leaves max - 1 calls. */
  lemma FirstCallAllowed(t: Table, ip: string, route: string, maxRequests: int, tick: Tick)
    requires Identifier(ip, route) !in t
    ensures var s := Check(t, ip, route, maxRequests, tick);
      && s.verdict == Verdict(true, RateInfo(maxRequests - 1, tick.at + WINDOW, None))
      && s.table[Identifier(ip, route)] == RateRecord(1, tick.at + WINDOW)
  {
  }

  /** Once the window has closed by the time of the decision, a call behaves exactly
      like a first call, whether or not cleanup evicted the record first. */
  lemma ClosedWindowRestarts(t: Table, ip: string, route: string, maxRequests: int, tick: Tick)
    requires Identifier(ip, route) in t && t[Identifier(ip, route)].resetAt <= tick.at
    ensures Check(t, ip, route, maxRequests, tick)
         == Check(t - {Identifier(ip, route)}, ip, route, maxRequests, tick)
  {
    var id := Identifier(ip, route);
    var u, v := Unexpired(t, tick.cleanAt), Unexpired(t - {id}, tick.cleanAt);
    assert u - {id} == v;
    assert u[id := RateRecord(1, tick.at + WINDOW)] == v[id := RateRecord(1, tick.at + WINDOW)];
  }

  /** With the window open and the ceiling reached, the call is denied, nothing but cleanup
      touches the table, and the client is told to retry exactly when the window closes. */
  lemma CeilingReachedDenied(t: Table, ip: string, route: string, maxRequests: int, tick: Tick)
    requires var id := Identifier(ip, route);
      id in t && tick.cleanAt <= t[id].resetAt && tick.at < t[id].resetAt && t[id].count >= maxRequests
    ensures var id, s := Identifier(ip, route), Check(t, ip, route, maxRequests, tick);
      && !s.verdict.allowed
      && s.verdict.info == RateInfo(0, t[id].resetAt, Some(t[id].resetAt - tick.at))
      && s.verdict.info.retryAfter.value > 0
      && s.table == Unexpired(t, tick.cleanAt)
  {
  }

  /** With the window open and the ceiling not reached, the count goes up by exactly one,
      the window end is kept, and the remaining allowance is the ceiling minus the new count. */
  lemma BelowCeilingCounted(t: Table, ip: string, route: string, maxRequests: int, tick: Tick)
    requires var id := Identifier(ip, route);
      id in t && tick.cleanAt <= t[id].resetAt && tick.at < t[id].resetAt && t[id].count < maxRequests
    ensures var id, s := Identifier(ip, route), Check(t, ip, route, maxRequests, tick);
      && s.verdict == Verdict(true, RateInfo(maxRequests - (t[id].count + 1), t[id].resetAt, None))
      && s.table[id] == RateRecord(t[id].count + 1, t[id].resetAt)
  {
  }

  /** A check writes only its own key; any other record either survives unchanged or was
      evicted because its window closed before the cleanup reading. */
  lemma CheckTouchesOnlyItsKey(t: Table, ip: string, route: string, maxRequests: int, tick: Tick, k: string)
    requires k != Identifier(ip, route)
    ensures var s := Check(t, ip, route, maxRequests, tick);
      && (k in s.table <==> k in t && t[k].resetAt >= tick.cleanAt)
      && (k in s.table ==> s.table[k] == t[k])
  {
  }

  /** A denied call reports a retry delay within (0, 3600] when no window was opened after the decision's clock reading. */
  lemma DenialRetryAfterBounded(t: Table, ip: string, route: string, maxRequests: int, tick: Tick, clock: int)
    requires IssuedBy(t, clock) && clock <= tick.at
    ensures var v := Check(t, ip, route, maxRequests, tick).verdict;
      !v.allowed ==> v.info.retryAfter.Some? && 0 < v.info.retryAfter.value <= WINDOW
  {
    var id := Identifier(ip, route);
    var u := Unexpired(t, tick.cleanAt);
    if id in u && tick.at < u[id].resetAt {
      assert u[id] == t[id];
    }
  }

  /** Checks taken at a clock reading no earlier than the last keep every window within one hour of the clock. */
  lemma CheckKeepsIssuedBy(t: Table, ip: string, route: string, maxRequests: int, tick: Tick, clock: int)
    requires IssuedBy(t, clock) && clock <= tick.at
    ensures IssuedBy(Check(t, ip, route, maxRequests, tick).table, tick.at)
  {
    var s := Check(t, ip, route, maxRequests, tick);
    forall k | k in s.table
      ensures s.table[k].resetAt <= tick.at + WINDOW
    {
      if k != Identifier(ip, route) {
        assert s.table[k] == t[k];
      }
    }
  }

  /** For a ceiling of at least 1, a check keeps every count of its own route between 1 and the ceiling. */
  lemma CheckKeepsCeiling(t: Table, ip: string, route: string, maxRequests: int, tick: Tick)
    requires maxRequests >= 1 && CountsWithin(t, route, maxRequests)
    ensures CountsWithin(Check(t, ip, route, maxRequests, tick).table, route, maxRequests)
  {
    var s := Check(t, ip, route, maxRequests, tick);
    forall other | Identifier(other, route) in s.table
      ensures 1 <= s.table[Identifier(other, route)].count <= maxRequests
    {
      if other != ip {
        if Identifier(other, route) == Identifier(ip, route) {
          IdentifierInjectiveOnRoute(other, ip, route);
        }
        assert s.table[Identifier(other, route)] == t[Identifier(other, route)];
      }
    }
  }

  /** A check on one colon-free route never changes the record of a client on another
      colon-free route: such a record either survives as it was or was evicted, so that
      route's counts stay within its ceiling. */
  lemma CheckKeepsOtherRoutes(t: Table, ip: string, route: string, maxRequests: int, tick: Tick,
                              other: string, otherMax: int)
    requires ':' !in route && ':' !in other && route != other
    requires CountsWithin(t, other, otherMax)
    ensures CountsWithin(Check(t, ip, route, maxRequests, tick).table, other, otherMax)
    ensures var s := Check(t, ip, route, maxRequests, tick);
      forall ip' :: Identifier(ip', other) in s.table ==>
        Identifier(ip', other) in t && s.table[Identifier(ip', other)] == t[Identifier(ip', other)]
  {
    var s := Check(t, ip, route, maxRequests, tick);
    forall ip' | Identifier(ip', other) in s.table
      ensures Identifier(ip', other) in t && s.table[Identifier(ip', other)] == t[Identifier(ip', other)]
      ensures 1 <= s.table[Identifier(ip', other)].count <= otherMax
    {
      if Identifier(ip', other) == Identifier(ip, route) {
        IdentifierInjective(ip', other, ip, route);
      }
    }
  }

  /** Successive checks against a record with count `c` and window end `resetAt`, all
      taken while that window is open: call i is allowed exactly when c + i is below the ceiling. */
  lemma {:induction false} ChecksInOpenWindow(t: Table, ip: string, route: string, maxRequests: int,
                                               ticks: seq<Tick>, c: int, resetAt: int)
    requires Identifier(ip, route) in t && t[Identifier(ip, route)] == RateRecord(c, resetAt)
    requires forall i :: 0 <= i < |ticks| ==> ticks[i].cleanAt <= resetAt && ticks[i].at < resetAt
    ensures var vs := RunChecks(t, ip, route, maxRequests, ticks);
      forall i :: 0 <= i < |ticks| ==>
        && vs[i].allowed == (c + i < maxRequests)
        && vs[i].info.remaining == (if c + i < maxRequests then maxRequests - (c + i + 1) else 0)
        && (c + i >= maxRequests ==> vs[i].info.retryAfter == Some(resetAt - ticks[i].at))
  {
    if ticks != [] {
      var id := Identifier(ip, route);
      var s := Check(t, ip, route, maxRequests, ticks[0]);
      var vs := RunChecks(t, ip, route, maxRequests, ticks);
      var rest := RunChecks(s.table, ip, route, maxRequests, ticks[1..]);
      assert vs == [s.verdict] + rest;
      var c' := if c < maxRequests then c + 1 else c;
      assert s.table[id] == RateRecord(c', resetAt);
      ChecksInOpenWindow(s.table, ip, route, maxRequests, ticks[1..], c', resetAt);
      forall i | 1 <= i < |ticks|
        ensures vs[i].allowed == (c + i < maxRequests)
        ensures vs[i].info.remaining == (if c + i < maxRequests then maxRequests - (c + i + 1) else 0)
        ensures c + i >= maxRequests ==> vs[i].info.retryAfter == Some(resetAt - ticks[i].at)
      {
        assert vs[i] == rest[i - 1];
      }
    }
  }

  /** From a client with no record, successive checks inside the hour opened by the first
      one are allowed for the first `maxRequests` calls, with remaining max-1, max-2, ...,
      0, and every later call in that hour is denied until the window closes. */
  lemma BurstWithinWindow(t: Table, ip: string, route: string, maxRequests: int, ticks: seq<Tick>)
    requires maxRequests >= 1
    requires Identifier(ip, route) !in t
    requires |ticks| >= 1
    requires forall i :: 0 <= i < |ticks| ==>
      ticks[i].cleanAt <= ticks[0].at + WINDOW && ticks[i].at < ticks[0].at + WINDOW
    ensures var vs := RunChecks(t, ip, route, maxRequests, ticks);
      forall i :: 0 <= i < |ticks| ==>
        && vs[i].allowed == (i < maxRequests)
        && (i < maxRequests ==> vs[i].info.remaining == maxRequests - 1 - i)
        && (i >= maxRequests ==> vs[i].info.retryAfter == Some(ticks[0].at + WINDOW - ticks[i].at))
  {
    var id := Identifier(ip, route);
    var s := Check(t, ip, route, maxRequests, ticks[0]);
    var vs := RunChecks(t, ip, route, maxRequests, ticks);
    var rest := RunChecks(s.table, ip, route, maxRequests, ticks[1..]);
    assert vs == [s.verdict] + rest;
    ChecksInOpenWindow(s.table, ip, route, maxRequests, ticks[1..], 1, ticks[0].at + WINDOW);
    forall i | 1 <= i < |ticks|
      ensures vs[i].allowed == (i < maxRequests)
      ensures i < maxRequests ==> vs[i].info.remaining == maxRequests - 1 - i
      ensures i >= maxRequests ==> vs[i].info.retryAfter == Some(ticks[0].at + WINDOW - ticks[i].at)
    {
      assert vs[i] == rest[i - 1];
    }
  }

  /** With the login ceiling of 6, the seventh login attempt from one address within the
      hour is denied and told to retry after a positive delay. */
  lemma SeventhLoginDenied(t: Table, ip: string, ticks: seq<Tick>)
    requires Identifier(ip, LOGIN_ROUTE) !in t
    requires |ticks| == 7
    requires forall i :: 0 <= i < 7 ==>
      ticks[0].at <= ticks[i].cleanAt <= ticks[i].at < ticks[0].at + WINDOW
    ensures var vs := RunChecks(t, ip, LOGIN_ROUTE, RATE_LIMIT_LOGIN, ticks);
      && (forall i :: 0 <= i < 6 ==> vs[i].allowed)
      && !vs[6].allowed && vs[6].info.retryAfter.Some? && vs[6].info.retryAfter.value > 0
  {
    BurstWithinWindow(t, ip, LOGIN_ROUTE, RATE_LIMIT_LOGIN, ticks);
  }

  /** The in-memory table shared by all requests of one process. */
  class RateLimiter {
    var requests: Table

    constructor ()
      ensures requests == map[]
    {
      requests := map[];
    }

    /** Drops every record whose window closed strictly before `now`. */
    method CleanExpired(now: int)
      modifies this
      ensures requests.Keys == set k | k in old(requests) && old(requests)[k].resetAt >= now
      ensures forall k :: k in requests ==> requests[k] == old(requests)[k]
      ensures requests == Unexpired(old(requests), now)
    {
      ghost var original := requests;
      var expired := set k | k in requests && requests[k].resetAt < now;
      ghost var doomed := expired;
      while expired != {}
        invariant expired <= doomed
        invariant requests.Keys == original.Keys - (doomed - expired)
        invariant forall k :: k in requests ==> requests[k] == original[k]
        decreases expired
      {
        var key :| key in expired;
        requests := requests - {key};
        expired := expired - {key};
      }
      assert requests.Keys == Unexpired(original, now).Keys;
    }

    /** `check_rate_limit`: cleanup with the first clock reading, then count this call
        from `client` on `route` against `maxRequests` with the second. */
    method CheckRateLimit(client: Option<string>, route: string, maxRequests: int, cleanAt: int, now: int)
      returns (allowed: bool, info: RateInfo)
      modifies this
      ensures Step(Verdict(allowed, info), requests)
           == Check(old(requests), ClientIp(client), route, maxRequests, Tick(cleanAt, now))
    {
      CleanExpired(cleanAt);
      var ip := ClientIp(client);
      var identifier := Identifier(ip, route);
      if identifier !in requests {
        requests := requests[identifier := RateRecord(1, now + WINDOW)];
        return true, RateInfo(maxRequests - 1, requests[identifier].resetAt, None);
      }
      var alive := requests[identifier];
      if now >= alive.resetAt {
        requests := requests[identifier := RateRecord(1, now + WINDOW)];
        return true, RateInfo(maxRequests - 1, requests[identifier].resetAt, None);
      }
      if alive.count >= maxRequests {
        return false, RateInfo(0, alive.resetAt, Some(alive.resetAt - now));
      }
      requests := requests[identifier := alive.(count := alive.count + 1)];
      return true, RateInfo(maxRequests - requests[identifier].count, alive.resetAt, None);
    }

    /** `get_info`: reads the record of (client, route) without counting a call. */
    method GetInfo(client: Option<string>, route: string) returns (view: RateView)
      ensures Identifier(ClientIp(client), route) !in requests ==> view == RateView(0, None)
      ensures Identifier(ClientIp(client), route) in requests ==>
        view == RateView(requests[Identifier(ClientIp(client), route)].count,
                         Some(requests[Identifier(ClientIp(client), route)].resetAt))
    {
      var ip := ClientIp(client);
      var identifier := Identifier(ip, route);
      if identifier !in requests {
        return RateView(0, None);
      }
      var record := requests[identifier];
      return RateView(record.count, Some(record.resetAt));
    }
  }
}
