/**
 The per-address throttle of the CSP report sink
 (server/src/zaqorincore_server/self_defense/csp_violation_reporter.py:75-125): stale
 addresses are evicted before every decision.
 */
module CspThrottle {
  import opened SlidingWindow

  const THROTTLE_WINDOW_SEC := 60.0
  const THROTTLE_BUDGET := 10

  const POLICY := Policy(THROTTLE_WINDOW_SEC, THROTTLE_BUDGET)

  type Recent = map<string, seq<real>>

  function HitsOf(m: Recent, ip: string): seq<real> {
    if ip in m then m[ip] else []
  }

  predicate Stale(hits: seq<real>, cutoff: real) { hits == [] || hits[|hits| - 1] < cutoff }

  function Evicted(m: Recent, now: real): Recent {
    map ip | ip in m && !Stale(m[ip], now - THROTTLE_WINDOW_SEC) :: m[ip]
  }

  /** The hits of the reporting address that still count. */
  function Counted(m: Recent, r: Request): seq<real> {
    Trim(HitsOf(Evicted(m, r.at), r.caller), r.at - THROTTLE_WINDOW_SEC)
  }

  predicate Admits(m: Recent, r: Request) { |Counted(m, r)| < THROTTLE_BUDGET }

  function After(m: Recent, r: Request): Recent {
    Evicted(m, r.at)[r.caller := if Admits(m, r) then Counted(m, r) + [r.at] else Counted(m, r)]
  }

  function AfterAll(reqs: seq<Request>): Recent {
    if reqs == [] then map[] else After(AfterAll(reqs[..|reqs| - 1]), reqs[|reqs| - 1])
  }

  class Throttle {
    var recent: Recent

    constructor ()
      ensures recent == map[]
    {
      recent := map[];
    }

    method EvictStale(now: real)
      modifies this
      ensures recent == Evicted(old(recent), now)
    {
      var cutoff := now - THROTTLE_WINDOW_SEC;
      var stale := set ip | ip in recent && Stale(recent[ip], cutoff);
      recent := recent - stale;
    }

    method ThrottleAllowed(ip: string, now: real) returns (ok: bool)
      modifies this
      ensures ok <==> Admits(old(recent), Request(ip, now))
      ensures recent == After(old(recent), Request(ip, now))
    {
      EvictStale(now);
      hide Evicted;
      ghost var live, hits := recent, HitsOf(recent, ip);
      if ip !in recent {
        recent := recent[ip := []];
      }
      var cutoff := now - THROTTLE_WINDOW_SEC;
      while recent[ip] != [] && recent[ip][0] < cutoff
        invariant ip in recent && recent == live[ip := recent[ip]]
        invariant Trim(recent[ip], cutoff) == Trim(hits, cutoff)
        decreases |recent[ip]|
      {
        recent := recent[ip := recent[ip][1..]];
      }
      assert recent == live[ip := Trim(hits, cutoff)];
      if |recent[ip]| >= THROTTLE_BUDGET {
        return false;
      }
      recent := recent[ip := recent[ip] + [now]];
      return true;
    }
  }

  // ---- The throttle decides as the full history does ----

  /** Eviction drops only hits that are out of every later window. */
  lemma EvictionTracks(m: Recent, ip: string, h: seq<real>, before: real, now: real)
    requires Tracks(HitsOf(m, ip), h, before, THROTTLE_WINDOW_SEC) && SortedUpTo(h, before) && before <= now
    ensures Tracks(HitsOf(Evicted(m, now), ip), h, now, THROTTLE_WINDOW_SEC)
  {
    if ip in m && Stale(m[ip], now - THROTTLE_WINDOW_SEC) {
      forall i | 0 <= i < |h| ensures h[i] < now - THROTTLE_WINDOW_SEC {
        if i >= |h| - |m[ip]| {
          assert h[i] <= h[|h| - 1] == m[ip][|m[ip]| - 1];
        }
      }
    }
  }

  lemma AppendTracks(hits: seq<real>, h: seq<real>, now: real)
    requires Tracks(hits, h, now, THROTTLE_WINDOW_SEC)
    ensures Tracks(hits + [now], h + [now], now, THROTTLE_WINDOW_SEC)
  {
  }

  lemma AfterHits(m: Recent, r: Request, ip: string)
    ensures HitsOf(After(m, r), ip) ==
            if r.caller != ip then HitsOf(Evicted(m, r.at), ip)
            else if Admits(m, r) then Counted(m, r) + [r.at]
            else Counted(m, r)
  {
    hide Evicted, Counted;
  }

  /** What eviction and trimming leave still tracks the history, and decides as it does. */
  lemma CountedTracks(m: Recent, r: Request, h: seq<real>, before: real)
    requires Tracks(HitsOf(m, r.caller), h, before, THROTTLE_WINDOW_SEC) && SortedUpTo(h, before) && before <= r.at
    ensures Tracks(Counted(m, r), h, r.at, THROTTLE_WINDOW_SEC)
    ensures Admits(m, r) <==> Accepts(POLICY, h, r.at)
  {
    hide Trim, CountIn, Evicted, SortedUpTo, Tracks, HitsOf;
    EvictionTracks(m, r.caller, h, before, r.at);
    SortedLater(h, before, r.at);
    TrackTrim(HitsOf(Evicted(m, r.at), r.caller), h, r.at, r.at, THROTTLE_WINDOW_SEC);
  }

  lemma DecisionTracks(m: Recent, r: Request, ip: string, h: seq<real>, before: real)
    requires Tracks(HitsOf(m, ip), h, before, THROTTLE_WINDOW_SEC) && SortedUpTo(h, before) && before <= r.at
    ensures r.caller == ip ==> (Admits(m, r) <==> Accepts(POLICY, h, r.at))
    ensures Tracks(HitsOf(After(m, r), ip), if r.caller == ip && Accepts(POLICY, h, r.at) then h + [r.at] else h,
                   r.at, THROTTLE_WINDOW_SEC)
  {
    hide *;
    AfterHits(m, r, ip);
    if r.caller == ip {
      CountedTracks(m, r, h, before);
      AppendTracks(Counted(m, r), h, r.at);
    } else {
      EvictionTracks(m, ip, h, before, r.at);
    }
  }

  lemma {:induction false} RecentTracksHistory(reqs: seq<Request>, ip: string, now: real)
    requires Monotone(reqs) && forall i :: 0 <= i < |reqs| ==> reqs[i].at <= now
    ensures Tracks(HitsOf(AfterAll(reqs), ip), History(POLICY, reqs, ip), now, THROTTLE_WINDOW_SEC)
  {
    hide Trim, CountIn, After, Accepts;
    if reqs != [] {
      var before, r := reqs[..|reqs| - 1], reqs[|reqs| - 1];
      RecentTracksHistory(before, ip, r.at);
      HistorySorted(POLICY, before, ip, r.at);
      DecisionTracks(AfterAll(before), r, ip, History(POLICY, before, ip), r.at);
    }
  }

  /** After a request, the addresses that are remembered are the reporting one and those that
      reported in the last 60 seconds, with the reports they had. */
  lemma OnlyRecentAddressesStay(m: Recent, r: Request, ip: string)
    requires ip != r.caller
    ensures ip in After(m, r) <==> ip in m && m[ip] != [] && m[ip][|m[ip]| - 1] >= r.at - 60.0
    ensures ip in After(m, r) ==> After(m, r)[ip] == m[ip]
  {
    hide Counted, Admits;
  }

  /** On every run with a clock that does not go back, an address is admitted exactly when
      fewer than 10 of its reports were accepted in the closed 60 s before; evicting stale
      addresses changes no decision. */
  lemma DecidesAsFullHistory(reqs: seq<Request>, r: Request)
    requires Monotone(reqs) && forall i :: 0 <= i < |reqs| ==> reqs[i].at <= r.at
    ensures Admits(AfterAll(reqs), r) <==> Accepts(Policy(60.0, 10), History(Policy(60.0, 10), reqs, r.caller), r.at)
  {
    hide Trim, CountIn, Tracks, SortedUpTo, HitsOf, AfterAll, History, Accepts, Admits, After;
    RecentTracksHistory(reqs, r.caller, r.at);
    HistorySorted(POLICY, reqs, r.caller, r.at);
    DecisionTracks(AfterAll(reqs), r, r.caller, History(POLICY, reqs, r.caller), r.at);
  }

  /** Hence no address is accepted more than 10 times in any closed 60 s. */
  lemma BudgetHolds(reqs: seq<Request>, ip: string, from: real)
    requires Monotone(reqs)
    ensures CountIn(History(Policy(60.0, 10), reqs, ip), from, from + 60.0) <= 10
  {
    WindowNeverOverfull(POLICY, reqs, ip, from);
  }
}
