/**
 * The `$_SESSION` state shared by www/html/enginex/index.php, api.php, home.php
 * and functions.php, with the two pieces of logic index.php and api.php repeat
 * word for word: the per-action rate limiter (index.php:75-95, api.php:70-90,
 * which differ only in the key prefix and the attempt limit) and the admission
 * checks at the top of each page (index.php:22-42, api.php:12-35).
 *
 * A missing key is None. session_unset() + session_destroy() empties the session.
 */
module Sessions {
  import opened Wrappers

  /** Seconds a login stays valid, counted from login_time. */
  const SessionTimeout := 600

  /** One window of the rate limiter, kept in the session under its key: the calls
      counted and the time the window opened. */
  datatype RateWindow = RateWindow(count: int, start: int)

  /** What a rate-limiter call decides and the window it stores. */
  datatype RateDecision = RateDecision(allowed: bool, next: RateWindow)

  /** How the admission checks end. */
  datatype Admission = NotLoggedIn | Hijacked | TimedOut | Admitted

  /** One checkRateLimit call at `now` on the stored window `w` (None when unset):
      an unset window starts at `now` with count 0; a window older than `window`
      seconds restarts with this call counted; otherwise the call is allowed and
      counted while fewer than `max` calls were counted. */
  function RateStep(w: Option<RateWindow>, max: int, window: int, now: int): (d: RateDecision)
    ensures !d.allowed ==> d.next == (if w.Some? then w.value else RateWindow(0, now))
    ensures (if w.Some? then now - w.value.start else 0) > window ==> d.allowed && d.next == RateWindow(1, now)
  {
    var cur := if w.Some? then w.value else RateWindow(0, now);
    if now - cur.start > window then RateDecision(true, RateWindow(1, now))
    else if cur.count >= max then RateDecision(false, cur)
    else RateDecision(true, cur.(count := cur.count + 1))
  }

  /** How many of a run of calls, at the given times, the limiter lets through. */
  function AllowedCalls(w: RateWindow, max: int, window: int, times: seq<int>): nat
    decreases |times|
  {
    if times == [] then 0
    else
      var d := RateStep(Some(w), max, window, times[0]);
      (if d.allowed then 1 else 0) + AllowedCalls(d.next, max, window, times[1..])
  }

  function Min(a: int, b: int): int {
    if a <= b then a else b
  }

  /** Within one stored window the limiter lets exactly the first `max - count`
      calls through and refuses the rest, whatever their timing. */
  lemma {:induction false} AtMostMaxPerWindow(w: RateWindow, max: int, window: int, times: seq<int>)
    requires 0 <= w.count <= max
    requires forall i :: 0 <= i < |times| ==> times[i] - w.start <= window
    ensures AllowedCalls(w, max, window, times) == Min(|times|, max - w.count)
    decreases |times|
  {
    if times != [] {
      var d := RateStep(Some(w), max, window, times[0]);
      assert d.next.start == w.start;
      AtMostMaxPerWindow(d.next, max, window, times[1..]);
    }
  }

  /** The first call in a session is let through and opens a window at `now`,
      whenever the limit is at least one. */
  lemma FirstCallAllowed(max: int, window: int, now: int)
    requires max >= 1
    ensures RateStep(None, max, window, now) == RateDecision(true, RateWindow(1, now))
  {
  }

  class Session {
    var usuarioId: Option<int>
    var usuarioNombre: Option<string>
    var loginTime: Option<int>
    var userAgent: Option<string>
    var csrfToken: Option<string>
    var loginAttempts: Option<int>
    var lastAttemptTime: Option<int>
    /** The rate-limiter windows, by key. */
    var rateLimits: map<string, RateWindow>

    /** session_start() on a new session: nothing set. */
    constructor ()
      ensures Empty()
    {
      usuarioId := None;
      usuarioNombre := None;
      loginTime := None;
      userAgent := None;
      csrfToken := None;
      loginAttempts := None;
      lastAttemptTime := None;
      rateLimits := map[];
    }

    predicate Empty()
      reads this
    {
      && usuarioId.None? && usuarioNombre.None? && loginTime.None? && userAgent.None?
      && csrfToken.None? && loginAttempts.None? && lastAttemptTime.None? && rateLimits == map[]
    }

    /** session_unset(); session_destroy(); */
    method Destroy()
      modifies this
      ensures Empty()
    {
      usuarioId := None;
      usuarioNombre := None;
      loginTime := None;
      userAgent := None;
      csrfToken := None;
      loginAttempts := None;
      lastAttemptTime := None;
      rateLimits := map[];
    }

    /** checkRateLimit() under the session key `key`. */
    method CheckRateLimit(key: string, max: int, window: int, now: int) returns (allowed: bool)
      modifies this
      ensures var d := RateStep(if key in old(rateLimits) then Some(old(rateLimits)[key]) else None, max, window, now);
              allowed == d.allowed && rateLimits == old(rateLimits)[key := d.next]
      ensures usuarioId == old(usuarioId) && usuarioNombre == old(usuarioNombre) && loginTime == old(loginTime)
              && userAgent == old(userAgent) && csrfToken == old(csrfToken)
              && loginAttempts == old(loginAttempts) && lastAttemptTime == old(lastAttemptTime)
    {
      if key !in rateLimits {
        rateLimits := rateLimits[key := RateWindow(0, now)];
      }
      var elapsed := now - rateLimits[key].start;
      if elapsed > window {
        rateLimits := rateLimits[key := RateWindow(1, now)];
        return true;
      }
      if rateLimits[key].count >= max {
        return false;
      }
      rateLimits := rateLimits[key := rateLimits[key].(count := rateLimits[key].count + 1)];
      return true;
    }

    /** The checks both pages make before anything else: a session must be logged
        in, keep its user agent, and be at most 600 seconds past its login. A
        changed user agent or an old login destroys the session. */
    method Admit(now: int, requestUserAgent: string) returns (a: Admission)
      modifies this
      ensures old(usuarioId).None? ==> a == NotLoggedIn && unchanged(this)
      ensures old(usuarioId).Some? && old(userAgent).Some? && old(userAgent).value != requestUserAgent ==>
                a == Hijacked && Empty()
      ensures old(usuarioId).Some? && !(old(userAgent).Some? && old(userAgent).value != requestUserAgent)
              && old(loginTime).Some? && now - old(loginTime).value > SessionTimeout ==>
                a == TimedOut && Empty()
      ensures a == Admitted <==>
                old(usuarioId).Some? && !(old(userAgent).Some? && old(userAgent).value != requestUserAgent)
                && !(old(loginTime).Some? && now - old(loginTime).value > SessionTimeout)
      ensures a == Admitted ==> unchanged(this)
    {
      if usuarioId.None? {
        return NotLoggedIn;
      }
      if userAgent.Some? && userAgent.value != requestUserAgent {
        Destroy();
        return Hijacked;
      }
      if loginTime.Some? && now - loginTime.value > SessionTimeout {
        Destroy();
        return TimedOut;
      }
      return Admitted;
    }
  }
}
