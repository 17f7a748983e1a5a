/**
 Sliding-window admission, defined naively: every accepted request of every caller is
 remembered for ever, and a request is accepted when its closed window holds fewer than `limit`
 of its caller's accepted ones. The limiters of this server keep far less and decide the same.
 */
module SlidingWindow {

  datatype Request = Request(caller: string, at: real)

  datatype Policy = Policy(window: real, limit: nat)

  /** How many elements of `h` lie in the closed interval from `lo` to `hi`. */
  function CountIn(h: seq<real>, lo: real, hi: real): (n: nat)
    ensures n <= |h|
  {
    if h == [] then 0 else
      CountIn(h[..|h| - 1], lo, hi) + if lo <= h[|h| - 1] <= hi then 1 else 0
  }

  predicate Accepts(p: Policy, h: seq<real>, at: real) {
    CountIn(h, at - p.window, at) < p.limit
  }

  /** The accepted times of one caller. */
  function History(p: Policy, reqs: seq<Request>, caller: string): seq<real> {
    if reqs == [] then [] else
      var before := History(p, reqs[..|reqs| - 1], caller);
      var r := reqs[|reqs| - 1];
      if r.caller == caller && Accepts(p, before, r.at) then before + [r.at] else before
  }

  ghost predicate Monotone(reqs: seq<Request>) {
    forall i, j :: 0 <= i < j < |reqs| ==> reqs[i].at <= reqs[j].at
  }

  ghost predicate SortedUpTo(h: seq<real>, now: real) {
    && (forall i :: 0 <= i < |h| ==> h[i] <= now)
    && (forall i, j :: 0 <= i < j < |h| ==> h[i] <= h[j])
  }

  lemma {:induction false} HistorySorted(p: Policy, reqs: seq<Request>, caller: string, now: real)
    requires Monotone(reqs) && forall i :: 0 <= i < |reqs| ==> reqs[i].at <= now
    ensures SortedUpTo(History(p, reqs, caller), now)
  {
    if reqs != [] {
      HistorySorted(p, reqs[..|reqs| - 1], caller, reqs[|reqs| - 1].at);
    }
  }

  // ---- No window ever holds more than the limit ----

  lemma {:induction false} CountMonotone(h: seq<real>, lo: real, hi: real, lo': real, hi': real)
    requires lo' <= lo && hi <= hi'
    ensures CountIn(h, lo, hi) <= CountIn(h, lo', hi')
  {
    if h != [] {
      CountMonotone(h[..|h| - 1], lo, hi, lo', hi');
    }
  }

  lemma {:induction false} WindowNeverOverfull(p: Policy, reqs: seq<Request>, caller: string, from: real)
    requires Monotone(reqs)
    ensures CountIn(History(p, reqs, caller), from, from + p.window) <= p.limit
  {
    if reqs != [] {
      var before, r := reqs[..|reqs| - 1], reqs[|reqs| - 1];
      WindowNeverOverfull(p, before, caller, from);
      HistorySorted(p, before, caller, r.at);
      AppendKeepsBound(p, History(p, before, caller), r.at, from);
    }
  }

  /** Accepting one more hit overfills no window. */
  lemma AppendKeepsBound(p: Policy, h: seq<real>, at: real, from: real)
    requires SortedUpTo(h, at) && CountIn(h, from, from + p.window) <= p.limit
    ensures Accepts(p, h, at) ==> CountIn(h + [at], from, from + p.window) <= p.limit
  {
    assert (h + [at])[..|h|] == h;
    if from <= at <= from + p.window {
      CountUpTo(h, from, at, from + p.window);
      CountMonotone(h, from, at, at - p.window, at);
    }
  }

  /** Nothing is counted above the latest element. */
  lemma {:induction false} CountUpTo(h: seq<real>, lo: real, now: real, hi: real)
    requires SortedUpTo(h, now) && now <= hi
    ensures CountIn(h, lo, hi) == CountIn(h, lo, now)
  {
    if h != [] {
      CountUpTo(h[..|h| - 1], lo, now, hi);
    }
  }

  // ---- Dropping from the front is counting ----

  /** What is left when elements below `cutoff` are popped from the front. */
  function Trim(h: seq<real>, cutoff: real): (r: seq<real>)
    ensures |r| <= |h|
  {
    if h != [] && h[0] < cutoff then Trim(h[1..], cutoff) else h
  }

  lemma {:induction false} TrimLaws(h: seq<real>, cutoff: real)
    ensures var r := Trim(h, cutoff);
            && r == h[|h| - |r|..]
            && (forall i :: 0 <= i < |h| - |r| ==> h[i] < cutoff)
            && (r != [] ==> cutoff <= r[0])
  {
    if h != [] && h[0] < cutoff {
      TrimLaws(h[1..], cutoff);
    }
  }

  lemma {:induction false} CountSuffix(h: seq<real>, k: nat, lo: real, hi: real)
    requires k <= |h|
    requires forall i :: 0 <= i < k ==> h[i] < lo
    requires forall i :: k <= i < |h| ==> lo <= h[i] <= hi
    ensures CountIn(h, lo, hi) == |h| - k
  {
    if h != [] {
      CountSuffix(h[..|h| - 1], if k == |h| then k - 1 else k, lo, hi);
    }
  }

  lemma TrimCounts(h: seq<real>, lo: real, now: real)
    requires SortedUpTo(h, now)
    ensures |Trim(h, lo)| == CountIn(h, lo, now)
  {
    var k := |h| - |Trim(h, lo)|;
    TrimLaws(h, lo);
    hide Trim;
    forall i | k <= i < |h| ensures lo <= h[i] <= now {
      assert h[k] == Trim(h, lo)[0];
    }
    CountSuffix(h, k, lo, now);
  }

  /** `hits` is `h` without some leading elements, all of which are older than the window. */
  ghost predicate Tracks(hits: seq<real>, h: seq<real>, now: real, window: real) {
    && |hits| <= |h|
    && hits == h[|h| - |hits|..]
    && forall i :: 0 <= i < |h| - |hits| ==> h[i] < now - window
  }

  lemma {:induction false} TrimDropped(h: seq<real>, k: nat, cutoff: real)
    requires k <= |h| && forall i :: 0 <= i < k ==> h[i] < cutoff
    ensures Trim(h, cutoff) == Trim(h[k..], cutoff)
  {
    if k > 0 {
      TrimDropped(h[1..], k - 1, cutoff);
      assert h[1..][k - 1..] == h[k..];
    }
  }

  /** Trimming what is kept is trimming the whole history, and its length is the naive count. */
  lemma TrackTrim(hits: seq<real>, h: seq<real>, before: real, now: real, window: real)
    requires Tracks(hits, h, before, window) && SortedUpTo(h, now) && before <= now
    ensures Trim(hits, now - window) == Trim(h, now - window)
    ensures |Trim(hits, now - window)| == CountIn(h, now - window, now)
    ensures Tracks(Trim(hits, now - window), h, now, window)
  {
    TrimDropped(h, |h| - |hits|, now - window);
    TrimCounts(h, now - window, now);
    TrimLaws(h, now - window);
    hide Trim, CountIn;
  }

  // ---- When a refused caller may come back ----

  /** The seconds reported to a refused caller: until its oldest counted hit ages out. */
  function RetryAfter(p: Policy, h: seq<real>, at: real): real
    requires Trim(h, at - p.window) != []
  {
    Trim(h, at - p.window)[0] + p.window - at
  }

  lemma RefusedIsFull(p: Policy, reqs: seq<Request>, caller: string, at: real)
    requires Monotone(reqs) && (forall i :: 0 <= i < |reqs| ==> reqs[i].at <= at)
    requires !Accepts(p, History(p, reqs, caller), at)
    ensures |Trim(History(p, reqs, caller), at - p.window)| == p.limit
  {
    var h := History(p, reqs, caller);
    hide Trim, CountIn, History;
    HistorySorted(p, reqs, caller, at);
    TrimCounts(h, at - p.window, at);
    WindowNeverOverfull(p, reqs, caller, at - p.window);
  }

  lemma SortedLater(h: seq<real>, at: real, later: real)
    requires SortedUpTo(h, at) && at <= later
    ensures SortedUpTo(h, later)
  {
  }

  /** A later cutoff keeps everything exactly when it is no later than the oldest element kept. */
  lemma TrimLater(h: seq<real>, cutoff: real, cutoff': real)
    requires cutoff <= cutoff' && Trim(h, cutoff) != []
    ensures |Trim(h, cutoff')| <= |Trim(h, cutoff)|
    ensures |Trim(h, cutoff')| < |Trim(h, cutoff)| <==> Trim(h, cutoff)[0] < cutoff'
  {
    TrimLaws(h, cutoff);
    var kept := Trim(h, cutoff);
    TrimDropped(h, |h| - |kept|, cutoff');
  }

  /** Before its retry time, and at that very instant, a refused caller stays refused; after it,
      the caller is accepted. */
  lemma AcceptedIffLater(p: Policy, reqs: seq<Request>, caller: string, at: real, later: real)
    requires Monotone(reqs) && (forall i :: 0 <= i < |reqs| ==> reqs[i].at <= at) && at <= later
    requires p.limit > 0 && !Accepts(p, History(p, reqs, caller), at)
    ensures Trim(History(p, reqs, caller), at - p.window) != []
    ensures Accepts(p, History(p, reqs, caller), later)
       <==> later > at + RetryAfter(p, History(p, reqs, caller), at)
  {
    var h := History(p, reqs, caller);
    RefusedIsFull(p, reqs, caller, at);
    HistorySorted(p, reqs, caller, at);
    hide History, Monotone;
    TrimLater(h, at - p.window, later - p.window);
    TrimCounts(h, later - p.window, later) by { SortedLater(h, at, later); }
  }

  /** Requests of the refused caller up to its retry time change nothing, so its next request
      after that time is accepted. */
  lemma {:induction false} NextAfterRetryAccepted(p: Policy, reqs: seq<Request>, more: seq<Request>, caller: string, at: real, later: real)
    requires Monotone(reqs + more) && p.limit > 0
    requires forall i :: 0 <= i < |reqs| ==> reqs[i].at <= at
    requires !Accepts(p, History(p, reqs, caller), at)
    requires Trim(History(p, reqs, caller), at - p.window) != []
    requires var until := at + RetryAfter(p, History(p, reqs, caller), at);
             until < later && forall i :: 0 <= i < |more| ==> at <= more[i].at && (more[i].caller == caller ==> more[i].at <= until)
    ensures History(p, reqs + more, caller) == History(p, reqs, caller)
    ensures Accepts(p, History(p, reqs + more, caller), later)
  {
    assert Monotone(reqs) by {
      forall i, j | 0 <= i < j < |reqs| ensures reqs[i].at <= reqs[j].at {
        assert (reqs + more)[i].at <= (reqs + more)[j].at;
      }
    }
    if more == [] {
      assert reqs + more == reqs;
      TrimLaws(History(p, reqs, caller), at - p.window);
      AcceptedIffLater(p, reqs, caller, at, later);
    } else {
      var init, r := more[..|more| - 1], more[|more| - 1];
      assert (reqs + more)[..|reqs + more| - 1] == reqs + init;
      NextAfterRetryAccepted(p, reqs, init, caller, at, later);
      AcceptedIffLater(p, reqs, caller, at, r.at);
    }
  }

  // ---- The Retry-After header ----

  /** Whole seconds: at least 1, and rounded with 0.999. */
  function RetryHeader(retryAfter: real): int {
    var rounded := (retryAfter + 0.999).Floor;
    if rounded < 1 then 1 else rounded
  }

  /** A caller that waits exactly as long as the header says is accepted if and only if the
      remaining time is below one second or its fraction is at least a thousandth. */
  lemma HeaderSufficesIff(p: Policy, reqs: seq<Request>, caller: string, at: real)
    requires Monotone(reqs) && (forall i :: 0 <= i < |reqs| ==> reqs[i].at <= at)
    requires p.limit > 0 && !Accepts(p, History(p, reqs, caller), at)
    ensures Trim(History(p, reqs, caller), at - p.window) != []
    ensures var retry := RetryAfter(p, History(p, reqs, caller), at);
            Accepts(p, History(p, reqs, caller), at + RetryHeader(retry) as real)
            <==> retry < 1.0 || retry - retry.Floor as real >= 0.001
  {
    RefusedIsFull(p, reqs, caller, at);
    var retry := RetryAfter(p, History(p, reqs, caller), at);
    TrimLaws(History(p, reqs, caller), at - p.window);
    AcceptedIffLater(p, reqs, caller, at, at + RetryHeader(retry) as real);
    hide History, Trim, Accepts, Monotone, RetryAfter;
    HeaderExceeds(retry);
  }

  lemma FloorIs(x: real, n: int)
    requires n as real <= x < n as real + 1.0
    ensures x.Floor == n
  {
  }

  lemma HeaderExceeds(retry: real)
    ensures RetryHeader(retry) as real > retry <==> retry < 1.0 || retry - retry.Floor as real >= 0.001
  {
    var n := retry.Floor;
    if retry - n as real >= 0.001 {
      FloorIs(retry + 0.999, n + 1);
    } else {
      FloorIs(retry + 0.999, n);
    }
  }

  /** A caller refused at the instant its only hit was accepted is told 60 seconds, and is
      refused again after exactly 60 seconds. */
  lemma HeaderTooShort(caller: string)
    ensures var p, reqs := Policy(60.0, 1), [Request(caller, 0.0)];
            && History(p, reqs, caller) == [0.0]
            && !Accepts(p, [0.0], 0.0)
            && RetryHeader(RetryAfter(p, [0.0], 0.0)) == 60
            && !Accepts(p, [0.0], 60.0)
  {
    var reqs := [Request(caller, 0.0)];
    assert reqs[..0] == [] && [0.0][..0] == [];
    assert [] + [0.0] == [0.0];
    FloorIs(60.999, 60);
  }
}
