/**
 * The in-memory fixed-window rate limiter of `lib/rate-limit.ts`. The module-level `Map` becomes
 * a `RateLimiter` object with one `map` field; clock readings are parameters, and the one-in-a-
 * hundred coin of `Math.random()` becomes an optional second clock reading taken by the sweep.
 */
module RateLimit {
  import opened Wrappers
  import opened Text

  const DefaultLimit := 10
  const DefaultWindowMs := 60_000

  /** One identifier's window: requests counted so far and the instant the window closes. */
  datatype Window = Window(count: int, resetAt: int)

  /** A window is over once the clock is strictly past `resetAt`. */
  predicate Closed(w: Window, now: int) {
    now > w.resetAt
  }

  /** What `cleanupExpiredEntries` leaves: exactly the windows still open at `now`. */
  function Swept(m: map<string, Window>, now: int): (r: map<string, Window>)
    ensures forall k :: k in r <==> k in m && !Closed(m[k], now)
    ensures forall k :: k in r ==> r[k] == m[k]
  {
    map k | k in m && !Closed(m[k], now) :: m[k]
  }

  /**
   * One call of `checkRateLimit` on the table `m` at clock `now`. The record is looked up before
   * the optional sweep (at clock `sweepAt`), and the increment goes to that record, which the
   * table no longer holds if the sweep removed it.
   */
  function Admit(m: map<string, Window>, id: string, limit: int, windowMs: int, now: int, sweepAt: Option<int>)
    : (r: (bool, map<string, Window>))
  {
    var swept := if sweepAt.Some? then Swept(m, sweepAt.value) else m;
    if id !in m || Closed(m[id], now) then (true, swept[id := Window(1, now + windowMs)])
    else if m[id].count >= limit then (false, swept)
    else if id in swept then (true, swept[id := Window(m[id].count + 1, m[id].resetAt)])
    else (true, swept)
  }

  class RateLimiter {
    var windows: map<string, Window>

    constructor ()
      ensures windows == map[]
    {
      windows := map[];
    }

    /** `cleanupExpiredEntries()` with the clock reading it takes. */
    method CleanupExpiredEntries(now: int)
      modifies this
      ensures windows == Swept(old(windows), now)
    {
      var pending := windows.Keys;
      ghost var start := windows;
      while pending != {}
        invariant pending <= start.Keys
        invariant forall k :: k in windows <==> k in start && (k in pending || !Closed(start[k], now))
        invariant forall k :: k in windows ==> windows[k] == start[k]
        decreases pending
      {
        var key :| key in pending;
        if Closed(windows[key], now) {
          windows := windows - {key};
        }
        pending := pending - {key};
      }
    }

    /** `checkRateLimit(identifier, limit, windowMs)`: whether the request is allowed. */
    method CheckRateLimit(identifier: string, limit: int, windowMs: int, now: int, sweepAt: Option<int>)
      returns (allowed: bool)
      modifies this
      ensures (allowed, windows) == Admit(old(windows), identifier, limit, windowMs, now, sweepAt)
    {
      var record: Option<Window> := if identifier in windows then Some(windows[identifier]) else None;
      if sweepAt.Some? {
        CleanupExpiredEntries(sweepAt.value);
      }
      if record.None? || Closed(record.value, now) {
        windows := windows[identifier := Window(1, now + windowMs)];
        return true;
      }
      if record.value.count >= limit {
        return false;
      }
      if identifier in windows {
        windows := windows[identifier := Window(record.value.count + 1, record.value.resetAt)];
      }
      return true;
    }
  }

  /** A request is refused exactly when its open window has already counted `limit` requests. */
  lemma DeniedIffLimitReached(m: map<string, Window>, id: string, limit: int, windowMs: int, now: int, sweepAt: Option<int>)
    ensures !Admit(m, id, limit, windowMs, now, sweepAt).0 <==>
      id in m && !Closed(m[id], now) && m[id].count >= limit
  {
  }

  /** The decision never depends on whether the sweep ran: the record was read before it. */
  lemma SweepKeepsDecision(m: map<string, Window>, id: string, limit: int, windowMs: int, now: int, sweepAt: int)
    ensures Admit(m, id, limit, windowMs, now, Some(sweepAt)).0 == Admit(m, id, limit, windowMs, now, None).0
  {
  }

  /** Only the caller's window changes; a sweep may also drop windows that are over. */
  lemma AdmitTouchesOnlyCaller(m: map<string, Window>, id: string, limit: int, windowMs: int, now: int, sweepAt: Option<int>, other: string)
    requires other != id
    ensures var m' := Admit(m, id, limit, windowMs, now, sweepAt).1;
      if sweepAt.None? then (other in m' <==> other in m) && (other in m ==> m'[other] == m[other])
      else (other in m' <==> other in m && !Closed(m[other], sweepAt.value)) && (other in m' ==> m'[other] == m[other])
  {
  }

  /** A caller without an open window is allowed and opens a fresh window holding this request. */
  lemma ResetOpensFreshWindow(m: map<string, Window>, id: string, limit: int, windowMs: int, now: int)
    requires id !in m || Closed(m[id], now)
    ensures Admit(m, id, limit, windowMs, now, None) == (true, m[id := Window(1, now + windowMs)])
  {
  }

  /** A refused request changes no window; only the sweep, if it runs, drops windows that are over. */
  lemma RefusalKeepsTable(m: map<string, Window>, id: string, limit: int, windowMs: int, now: int, sweepAt: Option<int>)
    requires id in m && !Closed(m[id], now) && m[id].count >= limit
    ensures Admit(m, id, limit, windowMs, now, sweepAt).1 == (if sweepAt.Some? then Swept(m, sweepAt.value) else m)
  {
  }

  /** Every window holds between one and `limit` counted requests. */
  predicate WithinLimit(m: map<string, Window>, limit: int) {
    forall k :: k in m ==> 1 <= m[k].count <= limit
  }

  /** With a positive limit, no window ever counts more requests than the limit allows. */
  lemma AdmitKeepsWithinLimit(m: map<string, Window>, id: string, limit: int, windowMs: int, now: int, sweepAt: Option<int>)
    requires limit >= 1 && WithinLimit(m, limit)
    ensures WithinLimit(Admit(m, id, limit, windowMs, now, sweepAt).1, limit)
  {
  }

  /** An allowed request in an open window is counted, unless a later sweep dropped that window. */
  lemma AllowedIsCounted(m: map<string, Window>, id: string, limit: int, windowMs: int, now: int)
    requires id in m && !Closed(m[id], now) && m[id].count < limit
    ensures Admit(m, id, limit, windowMs, now, None) == (true, m[id := Window(m[id].count + 1, m[id].resetAt)])
    ensures Admit(m, id, limit, windowMs, now, Some(now)) == (true, Swept(m, now)[id := Window(m[id].count + 1, m[id].resetAt)])
  {
  }

  /**
   * A lost increment is harmless: when the sweep removed the caller's window, that window was
   * already over at the sweep's clock, so any later request from the caller opens a fresh one
   * just as it would have had the increment been kept.
   */
  lemma LostIncrementIsHarmless(m: map<string, Window>, id: string, limit: int, windowMs: int, now: int, sweepAt: int, later: int)
    requires id in m && !Closed(m[id], now) && m[id].count < limit
    requires sweepAt >= now && Closed(m[id], sweepAt) && later >= sweepAt
    ensures var kept := Swept(m, sweepAt)[id := Window(m[id].count + 1, m[id].resetAt)];
      var lost := Admit(m, id, limit, windowMs, now, Some(sweepAt)).1;
      Admit(lost, id, limit, windowMs, later, None) == Admit(kept, id, limit, windowMs, later, None)
  {
    var kept := Swept(m, sweepAt)[id := Window(m[id].count + 1, m[id].resetAt)];
    var lost := Admit(m, id, limit, windowMs, now, Some(sweepAt)).1;
    assert lost == Swept(m, sweepAt);
    assert kept == lost[id := Window(m[id].count + 1, m[id].resetAt)];
    assert lost[id := Window(1, later + windowMs)] == kept[id := Window(1, later + windowMs)];
  }

  /** A run of requests from one identifier with no sweep, one clock reading per request. */
  function AdmitAll(m: map<string, Window>, id: string, limit: int, windowMs: int, times: seq<int>)
    : (r: (seq<bool>, map<string, Window>))
    ensures |r.0| == |times|
    decreases |times|
  {
    if times == [] then ([], m)
    else
      var (allowed, m1) := Admit(m, id, limit, windowMs, times[0], None);
      var (rest, m2) := AdmitAll(m1, id, limit, windowMs, times[1..]);
      ([allowed] + rest, m2)
  }

  lemma AdmitAllStep(m: map<string, Window>, id: string, limit: int, windowMs: int, times: seq<int>,
                     allowed: bool, m1: map<string, Window>, rest: seq<bool>, m2: map<string, Window>)
    requires times != [] && Admit(m, id, limit, windowMs, times[0], None) == (allowed, m1)
    requires AdmitAll(m1, id, limit, windowMs, times[1..]) == (rest, m2)
    ensures AdmitAll(m, id, limit, windowMs, times) == ([allowed] + rest, m2)
  {
  }

  /**
   * Requests inside a window that has counted `c` so far: request `i` of the run is allowed
   * exactly when `c + i` is still under `limit`.
   */
  lemma {:induction false} OpenWindowRun(m: map<string, Window>, id: string, limit: int, windowMs: int, times: seq<int>)
    requires id in m
    requires forall i :: 0 <= i < |times| ==> !Closed(m[id], times[i])
    ensures AdmitAll(m, id, limit, windowMs, times).0 == seq(|times|, i => m[id].count + i < limit)
    decreases |times|
  {
    if times != [] {
      var c := m[id].count;
      var (allowed, m1) := Admit(m, id, limit, windowMs, times[0], None);
      assert allowed == (c < limit);
      assert m1[id] == Window(if c < limit then c + 1 else c, m[id].resetAt);
      assert forall i :: 0 <= i < |times[1..]| ==> !Closed(m1[id], times[1..][i]) by {
        forall i | 0 <= i < |times[1..]| ensures !Closed(m1[id], times[1..][i]) {
          assert times[1..][i] == times[i + 1];
        }
      }
      OpenWindowRun(m1, id, limit, windowMs, times[1..]);
      var rest := AdmitAll(m1, id, limit, windowMs, times[1..]).0;
      assert AdmitAll(m, id, limit, windowMs, times).0 == [allowed] + rest;
      assert forall i :: 0 <= i < |rest| ==> rest[i] == (m[id].count + (i + 1) < limit);
    }
  }

  /**
   * A burst from a caller without an open window, every request within `windowMs` of the first:
   * the first request is always allowed, and request `i` is allowed exactly when `i < limit`.
   */
  lemma BurstWithinWindow(m: map<string, Window>, id: string, limit: int, windowMs: int, times: seq<int>)
    requires times != [] && (id !in m || Closed(m[id], times[0]))
    requires forall i :: 0 <= i < |times| ==> times[i] <= times[0] + windowMs
    ensures AdmitAll(m, id, limit, windowMs, times).0 == seq(|times|, i => i == 0 || i < limit)
  {
    var m1 := Admit(m, id, limit, windowMs, times[0], None).1;
    ResetOpensFreshWindow(m, id, limit, windowMs, times[0]);
    assert forall i :: 0 <= i < |times[1..]| ==> !Closed(m1[id], times[1..][i]) by {
      forall i | 0 <= i < |times[1..]| ensures !Closed(m1[id], times[1..][i]) {
        assert times[1..][i] == times[i + 1];
      }
    }
    OpenWindowRun(m1, id, limit, windowMs, times[1..]);
  }

  /** Called with its defaults, `checkRateLimit` lets ten requests a minute through and refuses the rest. */
  lemma TenPerMinute(id: string, times: seq<int>)
    requires times != []
    requires forall i :: 0 <= i < |times| ==> times[i] <= times[0] + DefaultWindowMs
    ensures AdmitAll(map[], id, DefaultLimit, DefaultWindowMs, times).0 == seq(|times|, i => i < 10)
  {
    BurstWithinWindow(map[], id, DefaultLimit, DefaultWindowMs, times);
  }

  /**
   * With limit 3 and a one-second window: three requests pass, the fourth inside the window is
   * refused, the instant `resetAt` itself still belongs to the window, and the first request after
   * it opens a new window.
   */
  lemma ThreePerSecond()
    ensures AdmitAll(map[], "client", 3, 1000, [0, 10, 20, 30, 1000, 1001]).0
      == [true, true, true, false, false, true]
    ensures AdmitAll(map[], "client", 3, 1000, [0, 10, 20, 30, 1000, 1001]).1
      == map["client" := Window(1, 2001)]
  {
    var m0: map<string, Window> := map[];
    var m1 := m0["client" := Window(1, 1000)];
    var m2 := m1["client" := Window(2, 1000)];
    var m3 := m2["client" := Window(3, 1000)];
    var m4 := m3["client" := Window(1, 2001)];
    ThreePerSecondSteps(m0, m1, m2, m3, m4);
    var t5: seq<int> := [1001];
    var t4 := [1000] + t5;
    var t3 := [30] + t4;
    var t2 := [20] + t3;
    var t1 := [10] + t2;
    var t0 := [0] + t1;
    assert t5[1..] == [] && t4[1..] == t5 && t3[1..] == t4 && t2[1..] == t3 && t1[1..] == t2 && t0[1..] == t1;
    AdmitAllStep(m3, "client", 3, 1000, t5, true, m4, [], m4);
    assert [true] + [] == [true];
    AdmitAllStep(m3, "client", 3, 1000, t4, false, m3, [true], m4);
    AdmitAllStep(m3, "client", 3, 1000, t3, false, m3, [false] + [true], m4);
    AdmitAllStep(m2, "client", 3, 1000, t2, true, m3, [false] + ([false] + [true]), m4);
    AdmitAllStep(m1, "client", 3, 1000, t1, true, m2, [true] + ([false] + ([false] + [true])), m4);
    AdmitAllStep(m0, "client", 3, 1000, t0, true, m1, [true] + ([true] + ([false] + ([false] + [true]))), m4);
    assert t0 == [0, 10, 20, 30, 1000, 1001];
    assert m4 == map["client" := Window(1, 2001)];
  }

  lemma ThreePerSecondSteps(m0: map<string, Window>, m1: map<string, Window>, m2: map<string, Window>,
                            m3: map<string, Window>, m4: map<string, Window>)
    requires m0 == map[] && m1 == m0["client" := Window(1, 1000)] && m2 == m1["client" := Window(2, 1000)]
    requires m3 == m2["client" := Window(3, 1000)] && m4 == m3["client" := Window(1, 2001)]
    ensures Admit(m0, "client", 3, 1000, 0, None) == (true, m1)
    ensures Admit(m1, "client", 3, 1000, 10, None) == (true, m2)
    ensures Admit(m2, "client", 3, 1000, 20, None) == (true, m3)
    ensures Admit(m3, "client", 3, 1000, 30, None) == (false, m3)
    ensures Admit(m3, "client", 3, 1000, 1000, None) == (false, m3)
    ensures Admit(m3, "client", 3, 1000, 1001, None) == (true, m4)
  {
  }

  /** Header names this limiter reads, in priority order. */
  const ForwardedFor := "x-forwarded-for"
  const RealIp := "x-real-ip"
  const ConnectingIp := "cf-connecting-ip"
  const Unknown := "unknown"

  /** `headers.get(name)`, with "no such header" read as the empty string that `||` skips. */
  function Header(headers: map<string, string>, name: string): string {
    if name in headers then headers[name] else ""
  }

  /**
   * `getClientIdentifier(headers)`: the first hop of `x-forwarded-for`, else `x-real-ip`, else
   * `cf-connecting-ip`, else `"unknown"`; an empty value counts as missing.
   */
  function GetClientIdentifier(headers: map<string, string>): (r: string)
    ensures r != ""
    ensures var hop := Split(Header(headers, ForwardedFor), ',')[0];
      if hop != "" then r == hop && ',' !in r
      else if Header(headers, RealIp) != "" then r == Header(headers, RealIp)
      else if Header(headers, ConnectingIp) != "" then r == Header(headers, ConnectingIp)
      else r == Unknown
  {
    var hop := if ForwardedFor in headers then Split(headers[ForwardedFor], ',')[0] else "";
    if hop != "" then hop
    else if RealIp in headers && headers[RealIp] != "" then headers[RealIp]
    else if ConnectingIp in headers && headers[ConnectingIp] != "" then headers[ConnectingIp]
    else Unknown
  }

  /** A proxy chain `client, proxy1, …` identifies the client by its first entry. */
  lemma ForwardedChainNamesClient(headers: map<string, string>, client: string, proxies: string)
    requires client != "" && ',' !in client
    ensures GetClientIdentifier(headers[ForwardedFor := client + "," + proxies]) == client
  {
    SplitAtSeparator(client, ',', proxies);
  }
}
