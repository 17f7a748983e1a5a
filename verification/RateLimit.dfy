/**
 The API rate limiter (server/src/zaqorincore_server/rate_limit.py): per-caller buckets of
 recent hits, trimmed on use and pruned now and then.
 */
module RateLimitModel {
  import opened SlidingWindow

  const WINDOW_SEC := 60.0
  const PRUNE_EVERY := 256

  type Buckets = map<string, seq<real>>

  datatype State = State(buckets: Buckets, sincePrune: nat)

  const EMPTY := State(map[], 0)

  function Hits(b: Buckets, caller: string): seq<real> {
    if caller in b then b[caller] else []
  }

  /** A bucket after `allow(now)`. */
  function Allowed(hits: seq<real>, limit: nat, now: real): seq<real> {
    var kept := Trim(hits, now - WINDOW_SEC);
    if |kept| < limit then kept + [now] else kept
  }

  predicate Decision(b: Buckets, limit: nat, r: Request) {
    |Trim(Hits(b, r.caller), r.at - WINDOW_SEC)| < limit
  }

  /** Every bucket trimmed, and the empty ones dropped. */
  function Pruned(b: Buckets, now: real): Buckets {
    map k | k in b && Trim(b[k], now - WINDOW_SEC) != [] :: Trim(b[k], now - WINDOW_SEC)
  }

  /** The locked part of `dispatch`. */
  function Dispatched(st: State, limit: nat, r: Request): State {
    var b := st.buckets[r.caller := Allowed(Hits(st.buckets, r.caller), limit, r.at)];
    if st.sincePrune + 1 >= PRUNE_EVERY then State(Pruned(b, r.at), 0) else State(b, st.sincePrune + 1)
  }

  function DispatchedAll(limit: nat, reqs: seq<Request>): State {
    if reqs == [] then EMPTY else Dispatched(DispatchedAll(limit, reqs[..|reqs| - 1]), limit, reqs[|reqs| - 1])
  }

  /** The full history of a caller after request `r`. */
  function Extended(p: Policy, h: seq<real>, r: Request, caller: string): seq<real> {
    if r.caller == caller && Accepts(p, h, r.at) then h + [r.at] else h
  }

  lemma AllowTracks(hits: seq<real>, limit: nat, h: seq<real>, before: real, now: real)
    requires Tracks(hits, h, before, WINDOW_SEC) && SortedUpTo(h, before) && before <= now
    ensures |Trim(hits, now - WINDOW_SEC)| < limit <==> Accepts(Policy(WINDOW_SEC, limit), h, now)
    ensures Tracks(Allowed(hits, limit, now), if Accepts(Policy(WINDOW_SEC, limit), h, now) then h + [now] else h, now, WINDOW_SEC)
  {
    SortedLater(h, before, now);
    TrackTrim(hits, h, before, now, WINDOW_SEC);
    hide Trim, CountIn;
  }

  lemma UpdatedTracks(b: Buckets, limit: nat, r: Request, caller: string, h: seq<real>, before: real)
    requires Tracks(Hits(b, caller), h, before, WINDOW_SEC) && SortedUpTo(h, before) && before <= r.at
    ensures var b' := b[r.caller := Allowed(Hits(b, r.caller), limit, r.at)];
            Tracks(Hits(b', caller), Extended(Policy(WINDOW_SEC, limit), h, r, caller), r.at, WINDOW_SEC)
  {
    if r.caller == caller {
      AllowTracks(Hits(b, caller), limit, h, before, r.at);
    }
  }

  lemma DispatchTracks(st: State, limit: nat, r: Request, caller: string, h: seq<real>, before: real)
    requires Tracks(Hits(st.buckets, caller), h, before, WINDOW_SEC) && SortedUpTo(h, before) && before <= r.at
    ensures Tracks(Hits(Dispatched(st, limit, r).buckets, caller),
                   Extended(Policy(WINDOW_SEC, limit), h, r, caller), r.at, WINDOW_SEC)
  {
    hide Trim, CountIn, Tracks, SortedUpTo, Hits, Pruned, Extended, Allowed;
    var b := st.buckets[r.caller := Allowed(Hits(st.buckets, r.caller), limit, r.at)];
    var h' := Extended(Policy(WINDOW_SEC, limit), h, r, caller);
    UpdatedTracks(st.buckets, limit, r, caller, h, before);
    ExtendedSorted(Policy(WINDOW_SEC, limit), h, r, caller, before);
    TrackTrim(Hits(b, caller), h', r.at, r.at, WINDOW_SEC);
    PrunedHits(b, r.at, caller);
  }

  lemma ExtendedSorted(p: Policy, h: seq<real>, r: Request, caller: string, before: real)
    requires SortedUpTo(h, before) && before <= r.at
    ensures SortedUpTo(Extended(p, h, r, caller), r.at)
  {
  }

  lemma PrunedHits(b: Buckets, now: real, caller: string)
    ensures Hits(Pruned(b, now), caller) == Trim(Hits(b, caller), now - WINDOW_SEC)
  {
  }

  lemma PrunedIs(b: Buckets, trimmed: Buckets, dead: set<string>, now: real)
    requires Trimmed(b, trimmed, {}, dead, now - WINDOW_SEC)
    ensures Pruned(b, now) == trimmed - dead
  {
    hide Trim;
  }

  /** The loop over all buckets: those not in `todo` are trimmed, and `dead` holds the empty ones
      among them. */
  ghost predicate Trimmed(before: Buckets, after: Buckets, todo: set<string>, dead: set<string>, cutoff: real) {
    && after.Keys == before.Keys && todo <= before.Keys && dead <= before.Keys - todo
    && (forall k :: k in before ==> after[k] == if k in todo then before[k] else Trim(before[k], cutoff))
    && (forall k :: k in before && k !in todo ==> (k in dead <==> after[k] == []))
  }

  lemma AllToDo(b: Buckets, cutoff: real)
    ensures Trimmed(b, b, b.Keys, {}, cutoff)
  {
  }

  lemma TrimStep(before: Buckets, after: Buckets, todo: set<string>, dead: set<string>, cutoff: real, k: string)
    requires Trimmed(before, after, todo, dead, cutoff) && k in todo && k in after
    ensures after[k] == before[k]
    ensures var hits := Trim(after[k], cutoff);
            Trimmed(before, after[k := hits], todo - {k}, if hits == [] then dead + {k} else dead, cutoff)
  {
    hide Trim;
  }

  // ---- What pruning keeps ----

  lemma {:induction false} TrimmedAwayIff(h: seq<real>, cutoff: real)
    ensures Trim(h, cutoff) != [] <==> exists i :: 0 <= i < |h| && h[i] >= cutoff
  {
    if h != [] && h[0] < cutoff {
      TrimmedAwayIff(h[1..], cutoff);
      assert forall i :: 0 <= i < |h| - 1 ==> h[1..][i] == h[i + 1];
    }
  }

  /** Pruning drops exactly the callers without a hit in the last 60 seconds. */
  lemma PrunedIff(b: Buckets, now: real, caller: string)
    ensures caller in Pruned(b, now) <==> caller in b && exists i :: 0 <= i < |b[caller]| && b[caller][i] >= now - 60.0
  {
    if caller in b { TrimmedAwayIff(b[caller], now - 60.0); }
    hide Trim;
  }

  lemma {:induction false} PruneCount(limit: nat, reqs: seq<Request>)
    ensures DispatchedAll(limit, reqs).sincePrune == |reqs| % 256
  {
    hide Pruned, Allowed, Hits;
    if reqs != [] {
      PruneCount(limit, reqs[..|reqs| - 1]);
    }
  }

  /** After every 256th request, each caller that still has a bucket was accepted in the last 60
      seconds. */
  lemma OnlyRecentCallersStay(limit: nat, reqs: seq<Request>, caller: string)
    requires reqs != [] && |reqs| % 256 == 0 && caller in DispatchedAll(limit, reqs).buckets
    ensures var hits := DispatchedAll(limit, reqs).buckets[caller];
            hits != [] && hits[0] >= reqs[|reqs| - 1].at - 60.0
  {
    var before, r := reqs[..|reqs| - 1], reqs[|reqs| - 1];
    PruneCount(limit, before);
    var st := DispatchedAll(limit, before);
    var b := st.buckets[r.caller := Allowed(Hits(st.buckets, r.caller), limit, r.at)];
    assert DispatchedAll(limit, reqs).buckets == Pruned(b, r.at);
    TrimLaws(b[caller], r.at - 60.0);
    hide Trim, Allowed, Hits, DispatchedAll;
  }

  /** No bucket ever holds more than `limit` hits. */
  lemma {:induction false} BucketsBounded(limit: nat, reqs: seq<Request>, caller: string)
    ensures |Hits(DispatchedAll(limit, reqs).buckets, caller)| <= limit
  {
    if reqs != [] {
      var r := reqs[|reqs| - 1];
      BucketsBounded(limit, reqs[..|reqs| - 1], caller);
      BucketsBoundedStep(DispatchedAll(limit, reqs[..|reqs| - 1]), limit, r, caller);
    }
    hide Hits, Dispatched;
  }

  lemma BucketsBoundedStep(st: State, limit: nat, r: Request, caller: string)
    requires |Hits(st.buckets, caller)| <= limit
    ensures |Hits(Dispatched(st, limit, r).buckets, caller)| <= limit
  {
    var b := st.buckets[r.caller := Allowed(Hits(st.buckets, r.caller), limit, r.at)];
    PrunedHits(b, r.at, caller);
    assert |Hits(b, caller)| <= limit;
    hide Trim, Pruned;
  }

  lemma NoHits(caller: string)
    ensures Hits(EMPTY.buckets, caller) == []
  {
  }

  lemma StillTracks(hits: seq<real>, h: seq<real>, before: real, now: real)
    requires Tracks(hits, h, before, WINDOW_SEC) && before <= now
    ensures Tracks(hits, h, now, WINDOW_SEC)
  {
  }

  /** Trimming and pruning lose nothing that could matter later: each bucket is the caller's
      full accepted history without hits that are older than the window. */
  lemma {:induction false} BucketsTrackHistory(limit: nat, reqs: seq<Request>, caller: string, now: real)
    requires Monotone(reqs) && forall i :: 0 <= i < |reqs| ==> reqs[i].at <= now
    ensures Tracks(Hits(DispatchedAll(limit, reqs).buckets, caller), History(Policy(WINDOW_SEC, limit), reqs, caller), now, WINDOW_SEC)
  {
    hide Trim, CountIn, Accepts, Dispatched, SortedUpTo, Hits;
    if reqs == [] {
      assert Hits(EMPTY.buckets, caller) == [] by { NoHits(caller); }
    } else {
      var before, r := reqs[..|reqs| - 1], reqs[|reqs| - 1];
      BucketsTrackHistory(limit, before, caller, r.at);
      HistorySorted(Policy(WINDOW_SEC, limit), before, caller, r.at);
      DispatchTracks(DispatchedAll(limit, before), limit, r, caller, History(Policy(WINDOW_SEC, limit), before, caller), r.at);
      hide Tracks;
      StillTracks(Hits(DispatchedAll(limit, reqs).buckets, caller), History(Policy(WINDOW_SEC, limit), reqs, caller), r.at, now);
    }
  }

  /** On every run with a clock that does not go back, the limiter decides as the naive
      full-history definition does. */
  lemma DecidesAsFullHistory(limit: nat, reqs: seq<Request>, r: Request)
    requires Monotone(reqs) && forall i :: 0 <= i < |reqs| ==> reqs[i].at <= r.at
    ensures Decision(DispatchedAll(limit, reqs).buckets, limit, r)
       <==> Accepts(Policy(60.0, limit), History(Policy(60.0, limit), reqs, r.caller), r.at)
  {
    hide Trim, CountIn, Tracks, SortedUpTo, Hits, DispatchedAll, History, Accepts;
    BucketsTrackHistory(limit, reqs, r.caller, r.at);
    HistorySorted(Policy(WINDOW_SEC, limit), reqs, r.caller, r.at);
    AllowTracks(Hits(DispatchedAll(limit, reqs).buckets, r.caller), limit, History(Policy(WINDOW_SEC, limit), reqs, r.caller), r.at, r.at);
  }
}

module RateLimit {
  import opened RateLimitModel
  import opened SlidingWindow

  class Bucket {
    var hits: seq<real>
    const limit: nat

    constructor (limit: nat)
      ensures hits == [] && this.limit == limit
    {
      hits := [];
      this.limit := limit;
    }

    method DropOlder(cutoff: real)
      modifies this
      ensures hits == Trim(old(hits), cutoff)
    {
      while hits != [] && hits[0] < cutoff
        invariant Trim(hits, cutoff) == Trim(old(hits), cutoff)
        decreases |hits|
      {
        hits := hits[1..];
      }
    }

    method Allow(now: real) returns (allowed: bool, retryAfter: real)
      requires limit > 0
      modifies this
      ensures hits == Allowed(old(hits), limit, now)
      ensures allowed <==> |Trim(old(hits), now - WINDOW_SEC)| < limit
      ensures allowed ==> retryAfter == 0.0
      ensures !allowed ==> retryAfter == Trim(old(hits), now - WINDOW_SEC)[0] + WINDOW_SEC - now >= 0.0
    {
      var cutoff := now - WINDOW_SEC;
      TrimLaws(hits, cutoff);
      DropOlder(cutoff);
      if |hits| >= limit {
        var wait := hits[0] + WINDOW_SEC - now;
        return false, if wait > 0.0 then wait else 0.0;
      }
      hits := hits + [now];
      return true, 0.0;
    }
  }

  class RateLimiter {
    var buckets: map<string, Bucket>
    var acceptedSincePrune: nat
    const limit: nat

    ghost predicate Valid()
      reads this`buckets
    {
      && limit > 0
      && (forall k :: k in buckets ==> buckets[k].limit == limit)
      && (forall k, m :: k in buckets && m in buckets && k != m ==> buckets[k] != buckets[m])
    }

    ghost function View(): Buckets
      reads this`buckets, buckets.Values
    {
      map k | k in buckets :: buckets[k].hits
    }

    ghost function Abstract(): State
      reads this, buckets.Values
    {
      State(View(), acceptedSincePrune)
    }

    constructor (limit: nat)
      requires limit > 0
      ensures Valid() && Abstract() == EMPTY && this.limit == limit
    {
      this.limit := limit;
      buckets := map[];
      acceptedSincePrune := 0;
    }

    method TrimOne(k: string, cutoff: real)
      requires Valid() && k in buckets
      modifies buckets[k]
      ensures Valid() && View() == old(View())[k := Trim(old(View())[k], cutoff)]
    {
      hide Trim;
      buckets[k].DropOlder(cutoff);
    }

    /** The first loop of `_prune`: trims every bucket, and returns the keys of the empty ones. */
    method TrimAll(cutoff: real) returns (dead: set<string>)
      requires Valid()
      modifies buckets.Values
      ensures Valid() && Trimmed(old(View()), View(), {}, dead, cutoff)
    {
      ghost var before := View();
      var todo := buckets.Keys;
      dead := {};
      hide Trim, Trimmed;
      assert before.Keys == todo;
      AllToDo(before, cutoff);
      while todo != {}
        invariant todo <= buckets.Keys && Trimmed(before, View(), todo, dead, cutoff)
        decreases todo
      {
        var k :| k in todo;
        ghost var view := View();
        TrimStep(before, view, todo, dead, cutoff, k);
        TrimOne(k, cutoff);
        if buckets[k].hits == [] {
          dead := dead + {k};
        }
        todo := todo - {k};
      }
    }

    /** The second loop of `_prune`: forgets the empty buckets. */
    method Forget(dead: set<string>)
      requires Valid()
      modifies this`buckets
      ensures Valid() && View() == old(View()) - dead
      ensures buckets.Values <= old(buckets.Values)
    {
      buckets := buckets - dead;
    }

    /** `_prune` */
    method Prune(now: real)
      requires Valid()
      modifies this`buckets, buckets.Values
      ensures Valid() && View() == Pruned(old(View()), now)
      ensures buckets.Values <= old(buckets.Values)
    {
      var dead := TrimAll(now - WINDOW_SEC);
      PrunedIs(old(View()), View(), dead, now);
      hide Trim, Trimmed, Pruned;
      Forget(dead);
    }

    /** The caller's bucket, created if need be, and its `allow` */
    method Admit(key: string, now: real) returns (allowed: bool, retryAfter: real)
      requires Valid()
      modifies this`buckets, buckets.Values
      ensures Valid() && fresh(buckets.Values - old(buckets.Values))
      ensures View() == old(View())[key := Allowed(Hits(old(View()), key), limit, now)]
      ensures allowed <==> Decision(old(View()), limit, Request(key, now))
      ensures !allowed ==>
        var kept := Trim(Hits(old(View()), key), now - WINDOW_SEC);
        kept != [] && retryAfter == kept[0] + WINDOW_SEC - now >= 0.0
    {
      if key !in buckets {
        var bucket := new Bucket(limit);
        buckets := buckets[key := bucket];
      }
      hide Trim;
      allowed, retryAfter := buckets[key].Allow(now);
    }

    /** The locked part of `dispatch` */
    method Dispatch(key: string, now: real) returns (allowed: bool, retryAfter: real)
      requires Valid()
      modifies this, buckets.Values
      ensures Valid()
      ensures Abstract() == Dispatched(old(Abstract()), limit, Request(key, now))
      ensures allowed <==> Decision(old(View()), limit, Request(key, now))
      ensures !allowed ==>
        var kept := Trim(Hits(old(View()), key), now - WINDOW_SEC);
        kept != [] && retryAfter == kept[0] + WINDOW_SEC - now >= 0.0
    {
      hide Trim, Pruned, Allowed, Hits, Decision;
      allowed, retryAfter := Admit(key, now);
      acceptedSincePrune := acceptedSincePrune + 1;
      if acceptedSincePrune >= PRUNE_EVERY {
        Prune(now);
        acceptedSincePrune := 0;
      }
    }
  }
}
