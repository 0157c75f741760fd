/**
 * The fixed-window limiter behind the public hub and the pairing endpoint
 * (packages/daemon/src/http.ts:118-193); the two differ in their bound on hits only.
 */
module RateLimiter {
  import opened Order

  datatype Limits = Limits(windowMs: nat, maxHits: nat, maxKeys: nat)

  const PUBLIC_MAX_KEYS := 10_000
  const PUBLIC := Limits(60_000, 60, PUBLIC_MAX_KEYS)
  const PAIR := Limits(60_000, 5, PUBLIC_MAX_KEYS)

  datatype Hit = Hit(count: nat, resetAt: int)

  type Hits = map<string, Hit>

  predicate Live(h: Hit, now: int) { now <= h.resetAt }

  function EvictExpired(hits: Hits, now: int): Hits {
    map k | k in hits && Live(hits[k], now) :: hits[k]
  }

  function Admit(l: Limits, hits: Hits, ip: string, now: int): (bool, Hits) {
    if ip !in hits || !Live(hits[ip], now) then
      var room := if |hits| >= l.maxKeys then EvictExpired(hits, now) else hits;
      if |room| >= l.maxKeys then (false, room)
      else (true, room[ip := Hit(1, now + l.windowMs)])
    else if hits[ip].count >= l.maxHits then (false, hits)
    else (true, hits[ip := Hit(hits[ip].count + 1, hits[ip].resetAt)])
  }

  class FixedWindowLimiter {
    const limits: Limits
    var hits: Hits

    constructor (limits: Limits)
      ensures this.limits == limits && hits == map[]
    {
      this.limits := limits;
      hits := map[];
    }

    method Evict(now: int)
      modifies this
      ensures hits == EvictExpired(old(hits), now)
    {
      var keys := hits.Keys;
      while keys != {}
        invariant keys <= hits.Keys <= old(hits).Keys
        invariant forall k | k in hits :: hits[k] == old(hits)[k]
        invariant forall k | k in old(hits) :: k in hits <==> k in keys || Live(old(hits)[k], now)
        decreases keys
      {
        var k :| k in keys;
        keys := keys - {k};
        if now > hits[k].resetAt {
          hits := hits - {k};
        }
      }
    }

    method Allow(ip: string, now: int) returns (ok: bool)
      modifies this
      ensures (ok, hits) == Admit(limits, old(hits), ip, now)
    {
      if ip !in hits || now > hits[ip].resetAt {
        if |hits| >= limits.maxKeys {
          Evict(now);
          if |hits| >= limits.maxKeys {
            return false;
          }
        }
        hits := hits[ip := Hit(1, now + limits.windowMs)];
        return true;
      }
      if hits[ip].count >= limits.maxHits {
        return false;
      }
      hits := hits[ip := hits[ip].(count := hits[ip].count + 1)];
      return true;
    }
  }

  // ---- every run ----

  datatype Request = Request(ip: string, now: int)

  function After(l: Limits, requests: seq<Request>): Hits {
    if requests == [] then map[]
    else
      var r := requests[|requests| - 1];
      Admit(l, After(l, requests[..|requests| - 1]), r.ip, r.now).1
  }

  /** The moments at which a key was admitted, oldest first. */
  function Admitted(l: Limits, requests: seq<Request>, ip: string): seq<int> {
    if requests == [] then []
    else
      var before, r := requests[..|requests| - 1], requests[|requests| - 1];
      Admitted(l, before, ip)
      + if r.ip == ip && Admit(l, After(l, before), r.ip, r.now).0 then [r.now] else []
  }

  predicate ClockForward(requests: seq<Request>) {
    forall i, j | 0 <= i < j < |requests| :: requests[i].now <= requests[j].now
  }

  function CountIn(times: seq<int>, from: int, to: int): nat {
    if times == [] then 0
    else CountIn(times[..|times| - 1], from, to) + (if from <= times[|times| - 1] <= to then 1 else 0)
  }

  predicate Ascending(times: seq<int>) { forall i, j | 0 <= i < j < |times| :: times[i] <= times[j] }

  /** A window admits its first hit before it looks at the bound. */
  function PerWindow(l: Limits): nat { if l.maxHits == 0 then 1 else l.maxHits }

  /**
   * The admissions fall into windows: the last starts at index `s`, holds at most `PerWindow`, spans
   * at most one window length, and starts more than that after the start of the window before it.
   */
  ghost predicate Windowed(l: Limits, times: seq<int>, s: nat)
    decreases |times|
  {
    && s < |times| <= s + PerWindow(l)
    && (forall i | s <= i < |times| :: times[s] <= times[i] <= times[s] + l.windowMs)
    && (s > 0 ==> exists p: nat :: p < s && Windowed(l, times[..s], p) && times[s] > times[p] + l.windowMs)
  }

  /** Admissions `2 * PerWindow - 1` apart are more than a window length apart. */
  lemma {:induction false} FarApart(l: Limits, times: seq<int>, s: nat, i: nat)
    requires Windowed(l, times, s) && Ascending(times)
    requires i + 2 * PerWindow(l) - 1 < |times|
    ensures times[i + 2 * PerWindow(l) - 1] > times[i] + l.windowMs
    decreases |times|
  {
    var j := i + 2 * PerWindow(l) - 1;
    var p: nat :| p < s && Windowed(l, times[..s], p) && times[s] > times[p] + l.windowMs;
    if j < s {
      FarApart(l, times[..s], p, i);
    }
  }

  /** The admissions inside an interval are consecutive. */
  lemma {:induction false} Consecutive(times: seq<int>, from: int, to: int) returns (p: nat, q: nat)
    requires Ascending(times)
    ensures p <= q <= |times| && CountIn(times, from, to) == q - p
    ensures forall i | p <= i < q :: from <= times[i] <= to
    ensures forall i | q <= i < |times| :: times[i] > to || q == p
    ensures p == q ==> forall i | 0 <= i < |times| :: !(from <= times[i] <= to)
  {
    if times == [] {
      p, q := 0, 0;
    } else {
      var n := |times| - 1;
      p, q := Consecutive(times[..n], from, to);
      if from <= times[n] <= to {
        if p == q {
          p, q := n, n + 1;
        } else {
          q := n + 1;
        }
      }
    }
  }

  /** State and history agree: the entry of a key is its last window, or that window has passed. */
  ghost predicate Tracks(l: Limits, hits: Hits, ip: string, times: seq<int>, clock: int) {
    && Ascending(times) && (forall i | 0 <= i < |times| :: times[i] <= clock)
    && (ip in hits ==> exists s: nat ::
          Windowed(l, times, s) && hits[ip].count == |times| - s && hits[ip].resetAt == times[s] + l.windowMs)
    && (ip !in hits ==> times == [] || exists s: nat :: Windowed(l, times, s) && times[s] + l.windowMs < clock)
  }

  ghost predicate TracksAll(l: Limits, requests: seq<Request>, clock: int) {
    forall ip :: Tracks(l, After(l, requests), ip, Admitted(l, requests, ip), clock)
  }

  /** A later admission inside the running window. */
  lemma WindowGrows(l: Limits, times: seq<int>, s: nat, now: int)
    requires Windowed(l, times, s) && |times| < s + PerWindow(l) && times[s] <= now <= times[s] + l.windowMs
    ensures Windowed(l, times + [now], s)
  {
    assert (times + [now])[..s] == times[..s];
  }

  /** A new window after the last one has passed. */
  lemma WindowStarts(l: Limits, times: seq<int>, s: nat, now: int)
    requires times != [] ==> Windowed(l, times, s) && now > times[s] + l.windowMs
    ensures Windowed(l, times + [now], |times|)
  {
    var longer := times + [now];
    assert longer[..|times|] == times;
    if times != [] {
      assert longer[s] == times[s];
    }
  }

  /** The entry after an admission is the window it belongs to. */
  lemma TracksAdmitted(l: Limits, next: Hits, ip: string, times: seq<int>, s: nat, now: int)
    requires Ascending(times) && (forall i | 0 <= i < |times| :: times[i] <= now) && ip in next
    requires Windowed(l, times + [now], s)
    requires next[ip] == Hit(|times| + 1 - s, (times + [now])[s] + l.windowMs)
    ensures Tracks(l, next, ip, times + [now], now)
  {
  }

  lemma AdmitRunning(l: Limits, hits: Hits, ip: string, times: seq<int>, clock: int, now: int)
    requires Tracks(l, hits, ip, times, clock) && now >= clock && ip in hits && Live(hits[ip], now)
    ensures var (ok, next) := Admit(l, hits, ip, now); Tracks(l, next, ip, if ok then times + [now] else times, now)
  {
    var (ok, next) := Admit(l, hits, ip, now);
    if ok {
      var s: nat :| Windowed(l, times, s) && hits[ip].count == |times| - s && hits[ip].resetAt == times[s] + l.windowMs;
      WindowGrows(l, times, s, now);
      TracksAdmitted(l, next, ip, times, s, now);
    }
  }

  /** A key whose entry is missing or expired had its last window pass. */
  lemma LastWindowPassed(l: Limits, hits: Hits, ip: string, times: seq<int>, clock: int, now: int) returns (s: nat)
    requires Tracks(l, hits, ip, times, clock) && now >= clock && (ip in hits ==> !Live(hits[ip], now))
    ensures times != [] ==> Windowed(l, times, s) && now > times[s] + l.windowMs
  {
    s := 0;
    if ip in hits {
      s :| Windowed(l, times, s) && hits[ip].count == |times| - s && hits[ip].resetAt == times[s] + l.windowMs;
    } else if times != [] {
      s :| Windowed(l, times, s) && times[s] + l.windowMs < clock;
    }
  }

  lemma AdmitNew(l: Limits, hits: Hits, ip: string, times: seq<int>, clock: int, now: int)
    requires Tracks(l, hits, ip, times, clock) && now >= clock && (ip in hits ==> !Live(hits[ip], now))
    ensures var (ok, next) := Admit(l, hits, ip, now); Tracks(l, next, ip, if ok then times + [now] else times, now)
  {
    var (ok, next) := Admit(l, hits, ip, now);
    var s := LastWindowPassed(l, hits, ip, times, clock, now);
    assert Ascending(times) && forall i | 0 <= i < |times| :: times[i] <= now;
    if ok {
      WindowStarts(l, times, s, now);
      TracksAdmitted(l, next, ip, times, |times|, now);
    } else {
      assert ip !in next;
    }
  }

  lemma AdmitMine(l: Limits, hits: Hits, ip: string, times: seq<int>, clock: int, now: int)
    requires Tracks(l, hits, ip, times, clock) && now >= clock
    ensures var (ok, next) := Admit(l, hits, ip, now); Tracks(l, next, ip, if ok then times + [now] else times, now)
  {
    if ip in hits && Live(hits[ip], now) {
      AdmitRunning(l, hits, ip, times, clock, now);
    } else {
      AdmitNew(l, hits, ip, times, clock, now);
    }
  }

  lemma AdmitOther(l: Limits, hits: Hits, ip: string, other: string, times: seq<int>, clock: int, now: int)
    requires Tracks(l, hits, other, times, clock) && now >= clock && other != ip
    ensures Tracks(l, Admit(l, hits, ip, now).1, other, times, now)
  {
    if other in hits {
      var s: nat :| Windowed(l, times, s)
        && hits[other].count == |times| - s && hits[other].resetAt == times[s] + l.windowMs;
    }
  }

  lemma {:induction false} RunsTrack(l: Limits, requests: seq<Request>, clock: int)
    requires ClockForward(requests) && forall i | 0 <= i < |requests| :: requests[i].now <= clock
    ensures TracksAll(l, requests, clock)
  {
    if requests != [] {
      var before, r := requests[..|requests| - 1], requests[|requests| - 1];
      RunsTrack(l, before, r.now);
      forall ip ensures Tracks(l, After(l, requests), ip, Admitted(l, requests, ip), clock) {
        var hits, times := After(l, before), Admitted(l, before, ip);
        assert Tracks(l, hits, ip, times, r.now);
        assert times + [] == times;
        if ip == r.ip {
          AdmitMine(l, hits, ip, times, r.now, r.now);
        } else {
          AdmitOther(l, hits, r.ip, ip, times, r.now, r.now);
        }
        LaterClock(l, After(l, requests), ip, Admitted(l, requests, ip), r.now, clock);
      }
    }
  }

  lemma LaterClock(l: Limits, hits: Hits, ip: string, times: seq<int>, clock: int, later: int)
    requires Tracks(l, hits, ip, times, clock) && clock <= later
    ensures Tracks(l, hits, ip, times, later)
  {
  }

  lemma StretchIsShort(l: Limits, times: seq<int>, s: nat, p: nat, q: nat, from: int)
    requires Windowed(l, times, s) && Ascending(times) && p <= q <= |times|
    requires forall i | p <= i < q :: from <= times[i] <= from + l.windowMs
    ensures q - p <= 2 * PerWindow(l) - 1
  {
    if p + 2 * PerWindow(l) - 1 < q {
      FarApart(l, times, s, p);
    }
  }

  /**
   * Over every run with a clock that does not run backwards, and for every key and every closed
   * interval of one window length: fewer than twice the bound of one window is admitted.
   */
  lemma {:induction false} AdmissionsAreBounded(l: Limits, requests: seq<Request>, ip: string, from: int)
    requires ClockForward(requests)
    ensures CountIn(Admitted(l, requests, ip), from, from + l.windowMs) <= 2 * PerWindow(l) - 1
  {
    var clock := if requests == [] then 0 else requests[|requests| - 1].now;
    RunsTrack(l, requests, clock);
    TrackedAreBounded(l, After(l, requests), ip, Admitted(l, requests, ip), clock, from);
  }

  /** In any minute: fewer than 120 hits of the hub, and fewer than 10 attempts at pairing, from one source. */
  lemma {:induction false} HubAndPairing(requests: seq<Request>, ip: string, from: int)
    requires ClockForward(requests)
    ensures CountIn(Admitted(PUBLIC, requests, ip), from, from + 60_000) < 120
    ensures CountIn(Admitted(PAIR, requests, ip), from, from + 60_000) < 10
  {
    AdmissionsAreBounded(PUBLIC, requests, ip, from);
    AdmissionsAreBounded(PAIR, requests, ip, from);
  }

  lemma {:induction false} TrackedAreBounded(l: Limits, hits: Hits, ip: string, times: seq<int>, clock: int, from: int)
    requires Tracks(l, hits, ip, times, clock)
    ensures CountIn(times, from, from + l.windowMs) <= 2 * PerWindow(l) - 1
  {
    var p, q := Consecutive(times, from, from + l.windowMs);
    if p < q {
      var s: nat :| Windowed(l, times, s);
      StretchIsShort(l, times, s, p, q, from);
    }
  }

  function Burst(ip: string, now: int, n: nat): seq<Request> {
    if n == 0 then [] else Burst(ip, now, n - 1) + [Request(ip, now)]
  }

  lemma {:induction false} BurstIsFlat(ip: string, now: int, n: nat)
    ensures |Burst(ip, now, n)| == n && forall i | 0 <= i < n :: Burst(ip, now, n)[i] == Request(ip, now)
  {
    if n > 0 {
      BurstIsFlat(ip, now, n - 1);
    }
  }

  lemma AdmittedSnoc(l: Limits, requests: seq<Request>, r: Request, from: int, to: int)
    ensures After(l, requests + [r]) == Admit(l, After(l, requests), r.ip, r.now).1
    ensures CountIn(Admitted(l, requests + [r], r.ip), from, to) == CountIn(Admitted(l, requests, r.ip), from, to)
      + if Admit(l, After(l, requests), r.ip, r.now).0 && from <= r.now <= to then 1 else 0
  {
    assert (requests + [r])[..|requests|] == requests;
    var times := Admitted(l, requests, r.ip);
    assert (times + [r.now])[..|times|] == times;
    assert times + [] == times;
  }

  /** A run that has left one entry and admitted `count` of its hits inside the interval. */
  predicate Reached(l: Limits, requests: seq<Request>, ip: string, h: Hit, from: int, to: int, count: nat) {
    After(l, requests) == map[ip := h] && CountIn(Admitted(l, requests, ip), from, to) == count
  }

  function Within(now: int, from: int, to: int, n: nat): nat { if from <= now <= to then n else 0 }

  lemma OneMoreHit(l: Limits, requests: seq<Request>, ip: string, now: int, h: Hit, from: int, to: int, count: nat)
    requires Reached(l, requests, ip, h, from, to, count) && Live(h, now) && h.count < l.maxHits
    ensures Reached(l, requests + [Request(ip, now)], ip, Hit(h.count + 1, h.resetAt), from, to,
      count + Within(now, from, to, 1))
  {
    AdmittedSnoc(l, requests, Request(ip, now), from, to);
    assert map[ip := h][ip := Hit(h.count + 1, h.resetAt)] == map[ip := Hit(h.count + 1, h.resetAt)];
  }

  lemma {:induction false} NewWindow(
    l: Limits, requests: seq<Request>, ip: string, now: int, from: int, to: int, count: nat)
    requires Passed(After(l, requests), ip, now) && l.maxKeys > 0
    requires CountIn(Admitted(l, requests, ip), from, to) == count
    ensures Reached(l, requests + [Request(ip, now)], ip, Hit(1, now + l.windowMs), from, to,
      count + Within(now, from, to, 1))
  {
    AdmittedSnoc(l, requests, Request(ip, now), from, to);
    AdmitFirst(l, After(l, requests), ip, now);
  }

  lemma AdmitFirst(l: Limits, hits: Hits, ip: string, now: int)
    requires Passed(hits, ip, now) && l.maxKeys > 0
    ensures Admit(l, hits, ip, now) == (true, map[ip := Hit(1, now + l.windowMs)])
  {
    assert EvictExpired(hits, now) == map[];
    assert hits[ip := Hit(1, now + l.windowMs)] == map[ip := Hit(1, now + l.windowMs)];
  }

  /** A burst of `k` hits inside a window that stood at `h`. */
  predicate Filled(l: Limits, rs: seq<Request>, k: nat, ip: string, now: int, h: Hit, from: int, to: int, count: nat) {
    Reached(l, rs, ip, Hit(h.count + k, h.resetAt), from, to, count + Within(now, from, to, k))
  }

  lemma {:induction false} FilledNext(
    l: Limits, rs: seq<Request>, k: nat, ip: string, now: int, h: Hit, from: int, to: int, count: nat)
    requires Filled(l, rs, k, ip, now, h, from, to, count) && Live(h, now) && h.count + k < l.maxHits
    ensures Filled(l, rs + [Request(ip, now)], k + 1, ip, now, h, from, to, count)
  {
    var stood, more := Hit(h.count + k, h.resetAt), count + Within(now, from, to, k);
    OneMoreHit(l, rs, ip, now, stood, from, to, more);
    assert Hit(stood.count + 1, stood.resetAt) == Hit(h.count + (k + 1), h.resetAt);
    assert more + Within(now, from, to, 1) == count + Within(now, from, to, k + 1);
  }

  /** A burst inside the running window is admitted whole while there is room. */
  lemma {:induction false} BurstFills(
    l: Limits, requests: seq<Request>, ip: string, now: int, n: nat, h: Hit, from: int, to: int, count: nat)
    requires Filled(l, requests, 0, ip, now, h, from, to, count) && Live(h, now) && (n > 0 ==> h.count + n <= l.maxHits)
    ensures Filled(l, requests + Burst(ip, now, n), n, ip, now, h, from, to, count)
  {
    if n == 0 {
      assert requests + Burst(ip, now, 0) == requests;
    } else {
      BurstFills(l, requests, ip, now, n - 1, h, from, to, count);
      BurstStep(l, requests, ip, now, n, h, from, to, count);
    }
  }

  lemma {:induction false} BurstStep(
    l: Limits, requests: seq<Request>, ip: string, now: int, n: nat, h: Hit, from: int, to: int, count: nat)
    requires n > 0 && Live(h, now) && h.count + n <= l.maxHits
    requires Filled(l, requests + Burst(ip, now, n - 1), n - 1, ip, now, h, from, to, count)
    ensures Filled(l, requests + Burst(ip, now, n), n, ip, now, h, from, to, count)
  {
    BurstSnoc(requests, ip, now, n);
    FilledNext(l, requests + Burst(ip, now, n - 1), n - 1, ip, now, h, from, to, count);
  }

  lemma BurstSnoc(requests: seq<Request>, ip: string, now: int, n: nat)
    requires n > 0
    ensures requests + Burst(ip, now, n) == requests + Burst(ip, now, n - 1) + [Request(ip, now)]
  {
  }

  /** Nothing but, at most, a window of this key that has passed. */
  predicate Passed(hits: Hits, ip: string, now: int) {
    hits.Keys <= {ip} && (ip in hits ==> !Live(hits[ip], now))
  }

  /** A window opened at `now` and filled at `later`. */
  lemma {:induction false} WindowFills(
    l: Limits, requests: seq<Request>, ip: string, now: int, later: int, from: int, to: int, count: nat)
    requires Passed(After(l, requests), ip, now) && l.maxKeys > 0 && now <= later <= now + l.windowMs
    requires CountIn(Admitted(l, requests, ip), from, to) == count
    ensures Reached(l, requests + [Request(ip, now)] + Burst(ip, later, PerWindow(l) - 1), ip,
      Hit(PerWindow(l), now + l.windowMs), from, to,
      count + Within(now, from, to, 1) + Within(later, from, to, PerWindow(l) - 1))
  {
    var n, begun, more := PerWindow(l) - 1, requests + [Request(ip, now)], count + Within(now, from, to, 1);
    NewWindow(l, requests, ip, now, from, to, count);
    OpenedFills(l, begun, ip, later, n, now + l.windowMs, from, to, more);
    assert Hit(n + 1, now + l.windowMs) == Hit(PerWindow(l), now + l.windowMs);
  }

  lemma {:induction false} OpenedFills(
    l: Limits, requests: seq<Request>, ip: string, later: int, n: nat, resetAt: int, from: int, to: int, count: nat)
    requires Reached(l, requests, ip, Hit(1, resetAt), from, to, count) && n == PerWindow(l) - 1 && later <= resetAt
    ensures Reached(l, requests + Burst(ip, later, n), ip, Hit(n + 1, resetAt), from, to,
      count + Within(later, from, to, n))
  {
    FilledAtFirst(l, requests, ip, later, Hit(1, resetAt), from, to, count);
    BurstFills(l, requests, ip, later, n, Hit(1, resetAt), from, to, count);
  }

  lemma {:induction false} FilledAtFirst(
    l: Limits, requests: seq<Request>, ip: string, now: int, h: Hit, from: int, to: int, count: nat)
    requires Reached(l, requests, ip, h, from, to, count)
    ensures Filled(l, requests, 0, ip, now, h, from, to, count)
  {
    assert Hit(h.count + 0, h.resetAt) == h;
  }

  /** Nor can the bound be lowered: a burst at the end of one window and one right after it reach it. */
  lemma BoundIsReached(l: Limits, ip: string) returns (requests: seq<Request>)
    requires l.maxKeys > 0 && l.windowMs > 0
    ensures ClockForward(requests)
    ensures CountIn(Admitted(l, requests, ip), 1, 1 + l.windowMs) == 2 * PerWindow(l) - 1
  {
    var m, w := PerWindow(l), l.windowMs;
    var late := [] + [Request(ip, 0)] + Burst(ip, w, m - 1);
    WindowFills(l, [], ip, 0, w, 1, 1 + w, 0);
    WindowFills(l, late, ip, w + 1, w + 1, 1, 1 + w, m - 1);
    requests := late + [Request(ip, w + 1)] + Burst(ip, w + 1, m - 1);
    BurstsForward(l, ip, requests, late);
  }

  lemma BurstsForward(l: Limits, ip: string, requests: seq<Request>, late: seq<Request>)
    requires late == [] + [Request(ip, 0)] + Burst(ip, l.windowMs, PerWindow(l) - 1)
    requires requests == late + [Request(ip, l.windowMs + 1)] + Burst(ip, l.windowMs + 1, PerWindow(l) - 1)
    ensures ClockForward(requests)
  {
    BurstIsFlat(ip, l.windowMs, PerWindow(l) - 1);
    BurstIsFlat(ip, l.windowMs + 1, PerWindow(l) - 1);
    forall i | 0 <= i < |late| ensures late[i].now <= l.windowMs {
      assert i > 0 ==> late[i] == Burst(ip, l.windowMs, PerWindow(l) - 1)[i - 1];
    }
  }

  /** The map of hits never outgrows its cap, and only windows that have passed are evicted. */
  lemma {:induction false} MapIsBounded(l: Limits, requests: seq<Request>)
    ensures |After(l, requests)| <= l.maxKeys
  {
    if requests != [] {
      var before, r := requests[..|requests| - 1], requests[|requests| - 1];
      MapIsBounded(l, before);
      AdmitKeepsCap(l, After(l, before), r.ip, r.now);
    }
  }

  lemma EvictShrinks(hits: Hits, now: int)
    ensures |EvictExpired(hits, now)| <= |hits|
  {
    var rest := EvictExpired(hits, now);
    SubsetIsSmaller(rest.Keys, hits.Keys);
    assert |rest| == |rest.Keys| && |hits| == |hits.Keys|;
  }

  lemma {:induction false} SubsetIsSmaller<T>(a: set<T>, b: set<T>)
    requires a <= b
    ensures |a| <= |b|
  {
    if a != {} {
      var x :| x in a;
      SubsetIsSmaller(a - {x}, b - {x});
    }
  }

  lemma AdmitKeepsCap(l: Limits, hits: Hits, ip: string, now: int)
    requires |hits| <= l.maxKeys
    ensures |Admit(l, hits, ip, now).1| <= l.maxKeys
  {
    EvictShrinks(hits, now);
    var room := if |hits| >= l.maxKeys then EvictExpired(hits, now) else hits;
    assert |room[ip := Hit(1, now + l.windowMs)]| <= |room| + 1;
    if ip in hits {
      assert hits[ip := Hit(hits[ip].count + 1, hits[ip].resetAt)].Keys == hits.Keys;
    }
  }

  /** A request never touches another key's live window. */
  lemma LiveWindowsSurvive(l: Limits, hits: Hits, ip: string, other: string, now: int)
    requires other != ip && other in hits && Live(hits[other], now)
    ensures var next := Admit(l, hits, ip, now).1; other in next && next[other] == hits[other]
  {
  }

  /** Refusal, exactly: the running window is used up, or it is a new window and all places are live. */
  lemma RefusedExactly(l: Limits, hits: Hits, ip: string, now: int)
    ensures !Admit(l, hits, ip, now).0 <==>
      if ip in hits && Live(hits[ip], now) then hits[ip].count >= l.maxHits
      else |EvictExpired(hits, now)| >= l.maxKeys
  {
    EvictShrinks(hits, now);
  }
}
