/**
 Whole runs of the Sigma rule runner (server/src/zaqorincore_server/rule_engine/runner.py)
 against a definition that never forgets anything.
 */
module SigmaRuns {
  import opened Sequences
  import opened SigmaModel

  // ---- The naive definition, for one rule and one dedup key ----

  /** A matching event seen outside cooldown, and whether it made the rule fire. */
  datatype Entry = Entry(id: nat, at: real, fired: bool)

  /** Some fire is less than the cooldown ago. */
  predicate Cooling(log: seq<Entry>, r: Rule, t: real) {
    log != [] &&
    ((log[|log| - 1].fired && t < log[|log| - 1].at + r.cooldown as real) || Cooling(log[..|log| - 1], r, t))
  }

  /** How many entries are later than `from`. */
  function Recent(log: seq<Entry>, from: real): nat {
    if log == [] then 0 else Recent(log[..|log| - 1], from) + if log[|log| - 1].at > from then 1 else 0
  }

  predicate ShouldFire(log: seq<Entry>, r: Rule, t: real) {
    !Cooling(log, r, t) && Recent(log, t - r.timeframe as real) + 1 >= r.count
  }

  function Log(r: Rule, dedup: string, run: seq<Arrival>): seq<Entry> {
    if run == [] then [] else
      var before, a := Log(r, dedup, run[..|run| - 1]), run[|run| - 1];
      if r.matches(a.event) && Dedup(r, a.event) == dedup && !Cooling(before, r, a.at) then
        before + [Entry(a.event.id, a.at, ShouldFire(before, r, a.at))]
      else before
  }

  // ---- Assumptions on a run ----

  /** A clock that starts at 0 or later and does not go back, and event identifiers that are
      never reused. */
  ghost predicate Proper(run: seq<Arrival>) {
    && (forall i :: 0 <= i < |run| ==> 0.0 <= run[i].at)
    && (forall i, j :: 0 <= i < j < |run| ==> run[i].at <= run[j].at && run[i].event.id != run[j].event.id)
  }

  ghost predicate DistinctIDs(rules: seq<Rule>) {
    forall i, j :: 0 <= i < j < |rules| ==> rules[i].id != rules[j].id
  }

  ghost predicate LogUpTo(log: seq<Entry>, now: real) {
    && (forall i :: 0 <= i < |log| ==> 0.0 <= log[i].at <= now)
    && (forall i, j :: 0 <= i < j < |log| ==> log[i].id != log[j].id)
  }

  // ---- The log as a sorted set ----

  function Entries(log: seq<Entry>, from: real): Scores {
    if log == [] then map[] else
      var rest, e := Entries(log[..|log| - 1], from), log[|log| - 1];
      if e.at > from then rest[e.id := e.at] else rest
  }

  lemma {:induction false} EntriesCount(log: seq<Entry>, from: real, now: real)
    requires LogUpTo(log, now)
    ensures |Entries(log, from)| == Recent(log, from)
    ensures forall id :: id in Entries(log, from) ==> exists i :: 0 <= i < |log| && log[i].id == id
  {
    if log != [] {
      var init, e := log[..|log| - 1], log[|log| - 1];
      EntriesCount(init, from, now);
      var rest := Entries(init, from);
      assert e.id !in rest;
      if e.at > from {
        assert rest[e.id := e.at].Keys == rest.Keys + {e.id};
      }
    }
  }

  lemma {:induction false} EntriesTrimmed(log: seq<Entry>, from: real, upTo: real, now: real)
    requires LogUpTo(log, now) && from <= upTo
    ensures RemoveRange(Entries(log, from), upTo) == Entries(log, upTo)
  {
    if log != [] {
      var init, e := log[..|log| - 1], log[|log| - 1];
      EntriesTrimmed(init, from, upTo, now);
      EntriesCount(init, from, now);
      EntriesCount(init, upTo, now);
    }
  }

  lemma {:induction false} EntriesGone(log: seq<Entry>, from: real)
    requires LogUpTo(log, from)
    ensures Entries(log, from) == map[]
  {
    if log != [] {
      EntriesGone(log[..|log| - 1], from);
    }
  }

  // ---- The store represents the log ----

  /** From `now` on, the pair's keys in Redis answer as its log does. */
  ghost predicate Represents(s: Store, r: Rule, p: Pair, log: seq<Entry>, now: real) {
    forall t :: now <= t ==> RepresentsAt(s, r, p, log, t)
  }

  ghost predicate RepresentsAt(s: Store, r: Rule, p: Pair, log: seq<Entry>, t: real) {
    && (InCooldown(s, p, t) <==> Cooling(log, r, t))
    && Kept(s, p, r, t) == Entries(log, t - r.timeframe as real)
  }

  lemma {:induction false} CoolingEarlier(log: seq<Entry>, r: Rule, t: real, t': real)
    requires Cooling(log, r, t') && t <= t'
    ensures Cooling(log, r, t)
  {
    if Cooling(log[..|log| - 1], r, t') {
      CoolingEarlier(log[..|log| - 1], r, t, t');
    }
  }

  /** The runner fires, with the same count, exactly when the naive definition does. */
  lemma FiresAsShould(s: Store, r: Rule, ev: Event, log: seq<Entry>, now: real)
    requires LogUpTo(log, now) && RepresentsAt(s, r, PairOf(r, ev), log, now)
    ensures Evaluated(s, r, ev, now) <==> r.matches(ev) && !Cooling(log, r, now)
    ensures CountWith(s, r, ev, now) == Recent(log, now - r.timeframe as real) + 1
    ensures Fires(s, r, ev, now) <==> r.matches(ev) && ShouldFire(log, r, now)
  {
    EntriesCount(log, now - r.timeframe as real, now);
  }

  /** The log after an event of the pair that is seen outside cooldown. */
  function Logged(log: seq<Entry>, r: Rule, ev: Event, now: real): seq<Entry> {
    log + [Entry(ev.id, now, ShouldFire(log, r, now))]
  }

  lemma CooldownAfter(s: Store, r: Rule, ev: Event, log: seq<Entry>, now: real, t: real)
    requires r.matches(ev) && !Cooling(log, r, now) && LogUpTo(log, now) && now <= t
    requires RepresentsAt(s, r, PairOf(r, ev), log, now) && RepresentsAt(s, r, PairOf(r, ev), log, t)
    ensures InCooldown(Applied(s, r, ev, now), PairOf(r, ev), t) <==> Cooling(Logged(log, r, ev, now), r, t)
  {
    FiresAsShould(s, r, ev, log, now);
    var log' := Logged(log, r, ev, now);
    assert log'[..|log'| - 1] == log;
    if Cooling(log, r, t) {
      CoolingEarlier(log, r, now, t);
    }
    hide Kept, Entries, Lifetime, LogUpTo;
  }

  lemma LoggedUpTo(log: seq<Entry>, r: Rule, ev: Event, now: real)
    requires LogUpTo(log, now) && 0.0 <= now && forall i :: 0 <= i < |log| ==> log[i].id != ev.id
    ensures LogUpTo(Logged(log, r, ev, now), now)
  {
  }

  lemma UpToLater(log: seq<Entry>, now: real, t: real)
    requires LogUpTo(log, now) && now <= t
    ensures LogUpTo(log, t)
  {
  }

  lemma ZSetWritten(s: Store, r: Rule, ev: Event, log: seq<Entry>, now: real)
    requires WellFormed(r) && r.matches(ev) && !Cooling(log, r, now) && LogUpTo(log, now)
    requires RepresentsAt(s, r, PairOf(r, ev), log, now)
    ensures var p, s' := PairOf(r, ev), Applied(s, r, ev, now);
            && p in s'.zsets
            && s'.zsets[p] == ZSet(Entries(Logged(log, r, ev, now), now - r.timeframe as real), now + Lifetime(r))
  {
    FiresAsShould(s, r, ev, log, now);
    var log' := Logged(log, r, ev, now);
    assert log'[..|log'| - 1] == log;
    hide Cooling, LogUpTo, Fires, ShouldFire, Kept, Recent, Lifetime;
  }

  lemma ZSetAfter(s: Store, r: Rule, ev: Event, log: seq<Entry>, now: real, t: real)
    requires WellFormed(r) && r.matches(ev) && !Cooling(log, r, now) && LogUpTo(log, now) && 0.0 <= now <= t
    requires RepresentsAt(s, r, PairOf(r, ev), log, now)
    requires forall i :: 0 <= i < |log| ==> log[i].id != ev.id
    ensures Kept(Applied(s, r, ev, now), PairOf(r, ev), r, t)
         == Entries(Logged(log, r, ev, now), t - r.timeframe as real)
  {
    hide Entries, Cooling, LogUpTo, Fires, ShouldFire, Applied, Logged, Kept, RepresentsAt;
    var tf, log' := r.timeframe as real, Logged(log, r, ev, now);
    ZSetWritten(s, r, ev, log, now);
    LoggedUpTo(log, r, ev, now);
    KeptIs(Applied(s, r, ev, now), PairOf(r, ev), r, t);
    if t < now + Lifetime(r) {
      EntriesTrimmed(log', now - tf, t - tf, now);
    } else {
      UpToLater(log', now, t - tf);
      EntriesGone(log', t - tf);
    }
  }

  lemma KeptIs(s: Store, p: Pair, r: Rule, t: real)
    requires p in s.zsets
    ensures Kept(s, p, r, t) == if t < s.zsets[p].expiresAt then RemoveRange(s.zsets[p].scores, t - r.timeframe as real) else map[]
  {
  }

  /** Evaluating the rule on an event of the pair extends the log and keeps representing it. */
  lemma AppliedRepresents(s: Store, r: Rule, ev: Event, log: seq<Entry>, now: real)
    requires WellFormed(r) && r.matches(ev) && !Cooling(log, r, now)
    requires Represents(s, r, PairOf(r, ev), log, now) && LogUpTo(log, now) && 0.0 <= now
    requires forall i :: 0 <= i < |log| ==> log[i].id != ev.id
    ensures Represents(Applied(s, r, ev, now), r, PairOf(r, ev), Logged(log, r, ev, now), now)
  {
    var p, s', log' := PairOf(r, ev), Applied(s, r, ev, now), Logged(log, r, ev, now);
    hide Applied, Logged, Kept, Entries, InCooldown, Cooling, LogUpTo;
    forall t | now <= t ensures RepresentsAt(s', r, p, log', t) {
      assert RepresentsAt(s, r, p, log, now) && RepresentsAt(s, r, p, log, t);
      CooldownAfter(s, r, ev, log, now, t);
      ZSetAfter(s, r, ev, log, now, t);
    }
  }

  // ---- Rules do not disturb each other ----

  ghost predicate SameAt(s: Store, s': Store, p: Pair) {
    && (p in s.zsets <==> p in s'.zsets) && (p in s.zsets ==> s.zsets[p] == s'.zsets[p])
    && (p in s.cooldowns <==> p in s'.cooldowns) && (p in s.cooldowns ==> s.cooldowns[p] == s'.cooldowns[p])
  }

  lemma SameRepresents(s: Store, s': Store, r: Rule, p: Pair, log: seq<Entry>, now: real)
    requires SameAt(s, s', p) && Represents(s, r, p, log, now)
    ensures Represents(s', r, p, log, now)
  {
    hide Entries, Cooling;
    forall t | now <= t ensures RepresentsAt(s', r, p, log, t) {
      assert RepresentsAt(s, r, p, log, t);
    }
  }

  lemma {:induction false} OthersKeepPair(s: Store, rules: seq<Rule>, ev: Event, t: real, p: Pair)
    requires forall i :: 0 <= i < |rules| ==> !rules[i].matches(ev) || PairOf(rules[i], ev) != p
    ensures SameAt(s, AppliedAll(s, rules, ev, t), p)
  {
    if rules != [] {
      OthersKeepPair(s, rules[..|rules| - 1], ev, t, p);
    }
  }

  lemma {:induction false} AppliedAllSplit(s: Store, rules: seq<Rule>, k: nat, ev: Event, t: real)
    requires k <= |rules|
    ensures AppliedAll(s, rules, ev, t) == AppliedAll(AppliedAll(s, rules[..k], ev, t), rules[k..], ev, t)
    decreases |rules|
  {
    if k == |rules| {
      assert rules[..k] == rules;
    } else {
      var n := |rules| - 1;
      assert rules[k..][..n - k] == rules[..n][k..] && rules[..n][..k] == rules[..k];
      AppliedAllSplit(s, rules[..n], k, ev, t);
    }
  }

  /** One event, all rules, seen from rule `k`: the rules before and after it, whose identifiers
      differ, leave its pairs alone. */
  lemma PairAfterEvent(s: Store, rules: seq<Rule>, k: nat, ev: Event, t: real, p: Pair)
    requires DistinctIDs(rules) && k < |rules| && p.0 == rules[k].id
    ensures SameAt(s, AppliedAll(s, rules[..k], ev, t), p)
    ensures SameAt(Applied(AppliedAll(s, rules[..k], ev, t), rules[k], ev, t), AppliedAll(s, rules, ev, t), p)
  {
    OthersKeepPair(s, rules[..k], ev, t, p);
    AppliedAllSplit(s, rules, k + 1, ev, t);
    assert rules[..k + 1][..k] == rules[..k];
    OthersKeepPair(AppliedAll(s, rules[..k + 1], ev, t), rules[k + 1..], ev, t, p);
  }

  // ---- Whole runs ----

  ghost predicate Sound(rules: seq<Rule>) {
    DistinctIDs(rules) && forall i :: 0 <= i < |rules| ==> WellFormed(rules[i])
  }

  lemma {:induction false} LogFromRun(r: Rule, dedup: string, run: seq<Arrival>, now: real)
    requires Proper(run) && forall i :: 0 <= i < |run| ==> run[i].at <= now
    ensures LogUpTo(Log(r, dedup, run), now)
    ensures forall i :: 0 <= i < |Log(r, dedup, run)| ==>
      exists j :: 0 <= j < |run| && run[j].event.id == Log(r, dedup, run)[i].id
  {
    if run != [] {
      var a := run[|run| - 1];
      LogFromRun(r, dedup, run[..|run| - 1], a.at);
    }
  }

  lemma {:induction false} StoreRepresentsLog(rules: seq<Rule>, k: nat, dedup: string, run: seq<Arrival>, now: real)
    requires Sound(rules) && k < |rules| && Proper(run) && 0.0 <= now
    requires forall i :: 0 <= i < |run| ==> run[i].at <= now
    ensures Represents(Ran(rules, run), rules[k], (rules[k].id, dedup), Log(rules[k], dedup, run), now)
    decreases |run|
  {
    var r, p := rules[k], (rules[k].id, dedup);
    if run != [] {
      var before, a := run[..|run| - 1], run[|run| - 1];
      StoreRepresentsLog(rules, k, dedup, before, a.at);
      StepRepresents(Ran(rules, before), rules, k, dedup, before, a);
      RepresentsLater(Ran(rules, run), r, p, Log(r, dedup, run), a.at, now);
    }
  }

  lemma RepresentsLater(s: Store, r: Rule, p: Pair, log: seq<Entry>, before: real, now: real)
    requires Represents(s, r, p, log, before) && before <= now
    ensures Represents(s, r, p, log, now)
  {
    hide RepresentsAt;
  }

  lemma StepRepresents(s: Store, rules: seq<Rule>, k: nat, dedup: string, before: seq<Arrival>, a: Arrival)
    requires Sound(rules) && k < |rules| && Proper(before + [a])
    requires Represents(s, rules[k], (rules[k].id, dedup), Log(rules[k], dedup, before), a.at)
    ensures Represents(AppliedAll(s, rules, a.event, a.at), rules[k], (rules[k].id, dedup), Log(rules[k], dedup, before + [a]), a.at)
  {
    var r, p, log := rules[k], (rules[k].id, dedup), Log(rules[k], dedup, before);
    var s1 := AppliedAll(s, rules[..k], a.event, a.at);
    var s2 := Applied(s1, r, a.event, a.at);
    PairAfterEvent(s, rules, k, a.event, a.at, p);
    SameRepresents(s, s1, r, p, log, a.at);
    assert (before + [a])[..|before|] == before && (before + [a])[|before|] == a;
    LogFromRun(r, dedup, before, a.at) by { ProperPrefix(before, a); }
    assert Log(r, dedup, before + [a]) ==
      if r.matches(a.event) && Dedup(r, a.event) == dedup && !Cooling(log, r, a.at) then Logged(log, r, a.event, a.at) else log;
    if r.matches(a.event) && Dedup(r, a.event) == dedup {
      if !Cooling(log, r, a.at) {
        FreshID(r, dedup, before, a);
        AppliedRepresents(s1, r, a.event, log, a.at);
      } else {
        assert RepresentsAt(s1, r, p, log, a.at);
      }
    } else {
      assert SameAt(s1, s2, p);
      SameRepresents(s1, s2, r, p, log, a.at);
    }
    SameRepresents(s2, AppliedAll(s, rules, a.event, a.at), r, p, Log(r, dedup, before + [a]), a.at);
  }

  lemma ProperPrefix(before: seq<Arrival>, a: Arrival)
    requires Proper(before + [a])
    ensures Proper(before) && forall i :: 0 <= i < |before| ==> before[i].at <= a.at
  {
    var run := before + [a];
    forall i | 0 <= i < |before| ensures 0.0 <= before[i].at <= a.at {
      assert run[i] == before[i] && run[|before|] == a;
    }
    forall i, j | 0 <= i < j < |before| ensures before[i].at <= before[j].at && before[i].event.id != before[j].event.id {
      assert run[i] == before[i] && run[j] == before[j];
    }
  }

  lemma FreshID(r: Rule, dedup: string, before: seq<Arrival>, a: Arrival)
    requires Proper(before + [a])
    ensures forall i :: 0 <= i < |Log(r, dedup, before)| ==> Log(r, dedup, before)[i].id != a.event.id
  {
    ProperPrefix(before, a);
    LogFromRun(r, dedup, before, a.at);
    var run := before + [a];
    forall j | 0 <= j < |before| ensures before[j].event.id != a.event.id {
      assert run[j] == before[j] && run[|before|] == a;
    }
  }

  /** On every proper run, rule `k` fires on the next event exactly when the definition that
      remembers everything says so, and reports the same count. */
  lemma FiresIffNaive(rules: seq<Rule>, k: nat, run: seq<Arrival>, a: Arrival)
    requires Sound(rules) && k < |rules| && Proper(run + [a])
    ensures var r, s := rules[k], AppliedAll(Ran(rules, run), rules[..k], a.event, a.at);
            var log := Log(r, Dedup(r, a.event), run);
            && (Fires(s, r, a.event, a.at) <==> r.matches(a.event) && ShouldFire(log, r, a.at))
            && CountWith(s, r, a.event, a.at) == Recent(log, a.at - r.timeframe as real) + 1
  {
    var r, p := rules[k], PairOf(rules[k], a.event);
    var s := AppliedAll(Ran(rules, run), rules[..k], a.event, a.at);
    var log := Log(r, p.1, run);
    ProperPrefix(run, a);
    assert (run + [a])[|run|] == a;
    hide Log, AppliedAll, Ran, RepresentsAt, LogUpTo, Fires, CountWith, ShouldFire, Recent, SameAt;
    StoreRepresentsLog(rules, k, p.1, run, a.at);
    PairAfterEvent(Ran(rules, run), rules, k, a.event, a.at, p);
    SameRepresents(Ran(rules, run), s, r, p, log, a.at);
    LogFromRun(r, p.1, run, a.at);
    FiresAsShould(s, r, a.event, log, a.at);
  }

  /** The fires of an event, by the definition that remembers everything. */
  function NaiveFires(rules: seq<Rule>, run: seq<Arrival>, a: Arrival): seq<Fire> {
    if rules == [] then [] else
      var r := rules[|rules| - 1];
      var log := Log(r, Dedup(r, a.event), run);
      NaiveFires(rules[..|rules| - 1], run, a) +
      if r.matches(a.event) && ShouldFire(log, r, a.at) then
        [Fire(r.id, a.event, Dedup(r, a.event), Recent(log, a.at - r.timeframe as real) + 1)]
      else []
  }

  lemma {:induction false} FiresOfPrefix(rules: seq<Rule>, k: nat, run: seq<Arrival>, a: Arrival)
    requires Sound(rules) && k <= |rules| && Proper(run + [a])
    ensures FiresAll(Ran(rules, run), rules[..k], a.event, a.at) == NaiveFires(rules[..k], run, a)
  {
    hide Log, Ran, Fires, CountWith, ShouldFire, Recent, Sound, Proper, AppliedAll;
    if k > 0 {
      FiresOfPrefix(rules, k - 1, run, a);
      assert rules[..k][..k - 1] == rules[..k - 1];
      FiresIffNaive(rules, k - 1, run, a);
    }
  }

  /** On every proper run, what `Evaluate` returns for the next event is the naive answer. */
  lemma RunnerIsNaive(rules: seq<Rule>, run: seq<Arrival>, a: Arrival)
    requires Sound(rules) && Proper(run + [a])
    ensures FiresAll(Ran(rules, run), rules, a.event, a.at) == NaiveFires(rules, run, a)
  {
    FiresOfPrefix(rules, |rules|, run, a);
    assert rules[..|rules|] == rules;
  }

  /** Two fires of one rule and dedup key are at least the cooldown apart. */
  lemma {:induction false} FiresFarApart(r: Rule, dedup: string, run: seq<Arrival>, i: nat, j: nat)
    requires i < j < |Log(r, dedup, run)|
    requires Log(r, dedup, run)[i].fired && Log(r, dedup, run)[j].fired
    ensures Log(r, dedup, run)[j].at >= Log(r, dedup, run)[i].at + r.cooldown as real
    decreases |run|
  {
    var log, before := Log(r, dedup, run), Log(r, dedup, run[..|run| - 1]);
    if j < |before| {
      FiresFarApart(r, dedup, run[..|run| - 1], i, j);
    } else {
      NotCooling(before, r, run[|run| - 1].at, i);
    }
  }

  lemma {:induction false} NotCooling(log: seq<Entry>, r: Rule, t: real, i: nat)
    requires !Cooling(log, r, t) && i < |log| && log[i].fired
    ensures t >= log[i].at + r.cooldown as real
  {
    if i < |log| - 1 {
      NotCooling(log[..|log| - 1], r, t, i);
    }
  }

  // ---- The same for what the runner returns ----

  /** The rule that a naive fire comes from. */
  lemma {:induction false} FireHasRule(rules: seq<Rule>, run: seq<Arrival>, a: Arrival, f: Fire) returns (k: nat)
    requires f in NaiveFires(rules, run, a)
    ensures k < |rules| && rules[k].id == f.ruleId && rules[k].matches(a.event) && Dedup(rules[k], a.event) == f.dedup
    ensures ShouldFire(Log(rules[k], f.dedup, run), rules[k], a.at)
  {
    hide Log, ShouldFire, Dedup;
    k := |rules| - 1;
    if f in NaiveFires(rules[..k], run, a) {
      k := FireHasRule(rules[..k], run, a, f);
    }
  }

  lemma {:induction false} LogGrows(r: Rule, dedup: string, run: seq<Arrival>, n: nat)
    requires n <= |run|
    ensures Log(r, dedup, run[..n]) <= Log(r, dedup, run)
  {
    hide ShouldFire, Cooling;
    if n < |run| {
      LogGrows(r, dedup, run[..|run| - 1], n);
      assert run[..|run| - 1][..n] == run[..n];
    } else {
      assert run[..n] == run;
    }
  }

  lemma ProperUpTo(run: seq<Arrival>, n: nat)
    requires Proper(run) && n < |run|
    ensures Proper(run[..n] + [run[n]]) && run[..n] + [run[n]] == run[..n + 1]
  {
  }

  /** A fire is logged, and is still in the log of every longer run. */
  lemma FireIsLogged(r: Rule, run: seq<Arrival>, i: nat, j: nat)
    requires i < j <= |run| && r.matches(run[i].event)
    requires var dedup := Dedup(r, run[i].event); ShouldFire(Log(r, dedup, run[..i]), r, run[i].at)
    ensures var dedup := Dedup(r, run[i].event);
            var n, log := |Log(r, dedup, run[..i])|, Log(r, dedup, run[..j]);
            n < |log| && log[n].fired && log[n].at == run[i].at
  {
    var dedup := Dedup(r, run[i].event);
    assert run[..i + 1][..i] == run[..i] && run[..j][..i + 1] == run[..i + 1];
    LogGrows(r, dedup, run[..j], i + 1);
    hide Cooling, Recent;
  }

  /** On every proper run, two fires that `Evaluate` returns for one rule and dedup key are at
      least the rule's cooldown apart. */
  lemma RunnerFiresFarApart(rules: seq<Rule>, run: seq<Arrival>, i: nat, j: nat, f: Fire, g: Fire)
    requires Sound(rules) && Proper(run) && i < j < |run| && f.ruleId == g.ruleId && f.dedup == g.dedup
    requires f in FiresAll(Ran(rules, run[..i]), rules, run[i].event, run[i].at)
    requires g in FiresAll(Ran(rules, run[..j]), rules, run[j].event, run[j].at)
    ensures exists k: nat ::
      k < |rules| && rules[k].id == f.ruleId && run[j].at >= run[i].at + rules[k].cooldown as real
  {
    ProperUpTo(run, i);
    ProperUpTo(run, j);
    hide Proper, Ran, FiresAll, NaiveFires, Log, Dedup, Cooling, Recent;
    RunnerIsNaive(rules, run[..i], run[i]);
    RunnerIsNaive(rules, run[..j], run[j]);
    var k := FireHasRule(rules, run[..i], run[i], f);
    var m := FireHasRule(rules, run[..j], run[j], g);
    assert k == m;
    FireIsLogged(rules[k], run, i, j);
    NotCooling(Log(rules[k], f.dedup, run[..j]), rules[k], run[j].at, |Log(rules[k], f.dedup, run[..i])|);
  }

  // ---- The documented count ----

  predicate OfPair(r: Rule, dedup: string, a: Arrival) { r.matches(a.event) && Dedup(r, a.event) == dedup }

  /** How many matching events of the pair are later than `from`, whether or not they came during
      cooldown: what the runner is documented to count. */
  function Arrived(r: Rule, dedup: string, run: seq<Arrival>, from: real): nat {
    if run == [] then 0 else
      var a := run[|run| - 1];
      Arrived(r, dedup, run[..|run| - 1], from) + if OfPair(r, dedup, a) && a.at > from then 1 else 0
  }

  /** Event `i` is of the pair, and came during its cooldown. */
  predicate Ignored(r: Rule, dedup: string, run: seq<Arrival>, i: nat)
    requires i < |run|
  {
    OfPair(r, dedup, run[i]) && Cooling(Log(r, dedup, run[..i]), r, run[i].at)
  }

  /** No event later than `from` was ignored. */
  ghost predicate NoneIgnored(r: Rule, dedup: string, run: seq<Arrival>, from: real) {
    forall i :: 0 <= i < |run| && Ignored(r, dedup, run, i) ==> run[i].at <= from
  }

  lemma NoneIgnoredStep(r: Rule, dedup: string, run: seq<Arrival>, from: real)
    requires run != []
    ensures var n := |run| - 1;
            NoneIgnored(r, dedup, run, from) <==>
              NoneIgnored(r, dedup, run[..n], from) && (Ignored(r, dedup, run, n) ==> run[n].at <= from)
  {
    var init := run[..|run| - 1];
    forall i | 0 <= i < |init| ensures Ignored(r, dedup, init, i) <==> Ignored(r, dedup, run, i) {
      assert init[..i] == run[..i];
    }
    hide Ignored;
  }

  /** The recorded events are among those that arrived, and are all of them exactly when none in
      the window came during cooldown. */
  lemma {:induction false} RecordedIsArrivedIff(r: Rule, dedup: string, run: seq<Arrival>, from: real)
    ensures Recent(Log(r, dedup, run), from) <= Arrived(r, dedup, run, from)
    ensures Recent(Log(r, dedup, run), from) == Arrived(r, dedup, run, from) <==> NoneIgnored(r, dedup, run, from)
  {
    if run != [] {
      var init, a := run[..|run| - 1], run[|run| - 1];
      RecordedIsArrivedIff(r, dedup, init, from);
      NoneIgnoredStep(r, dedup, run, from);
      hide NoneIgnored, ShouldFire, Cooling;
      var log, log' := Log(r, dedup, init), Log(r, dedup, run);
      assert log' != log ==> log'[..|log'| - 1] == log;
    }
  }

  /** The documented rule: matching, not in cooldown, and enough matching events in the window,
      the current one included. */
  predicate Documented(r: Rule, run: seq<Arrival>, a: Arrival) {
    var dedup := Dedup(r, a.event);
    && r.matches(a.event)
    && !Cooling(Log(r, dedup, run), r, a.at)
    && Arrived(r, dedup, run, a.at - r.timeframe as real) + 1 >= r.count
  }

  /** The event falls short by events that came during an earlier cooldown. */
  predicate FallsShort(r: Rule, run: seq<Arrival>, a: Arrival) {
    var dedup, from := Dedup(r, a.event), a.at - r.timeframe as real;
    && r.matches(a.event)
    && !Cooling(Log(r, dedup, run), r, a.at)
    && Recent(Log(r, dedup, run), from) + 1 < r.count <= Arrived(r, dedup, run, from) + 1
  }

  /** On the next event of every proper run, rule `k` of the runner fires as documented if and only
      if the event does not fall short. */
  lemma FiresAsDocumentedIff(rules: seq<Rule>, k: nat, run: seq<Arrival>, a: Arrival)
    requires Sound(rules) && k < |rules| && Proper(run + [a])
    ensures var s := AppliedAll(Ran(rules, run), rules[..k], a.event, a.at);
            (Fires(s, rules[k], a.event, a.at) <==> Documented(rules[k], run, a)) <==> !FallsShort(rules[k], run, a)
  {
    hide Log, Arrived, NoneIgnored, Fires, AppliedAll, Ran, Sound, Proper, Cooling, Recent, Dedup, CountWith;
    FiresIffNaive(rules, k, run, a);
    RecordedIsArrivedIff(rules[k], Dedup(rules[k], a.event), run, a.at - rules[k].timeframe as real);
  }

  /** In particular, if no event of the pair came during cooldown within the window. */
  lemma FiresAsDocumented(rules: seq<Rule>, k: nat, run: seq<Arrival>, a: Arrival)
    requires Sound(rules) && k < |rules| && Proper(run + [a])
    requires NoneIgnored(rules[k], Dedup(rules[k], a.event), run, a.at - rules[k].timeframe as real)
    ensures var s := AppliedAll(Ran(rules, run), rules[..k], a.event, a.at);
            Fires(s, rules[k], a.event, a.at) <==> Documented(rules[k], run, a)
  {
    hide Log, Arrived, NoneIgnored, Fires, AppliedAll, Ran, Sound, Proper, Cooling, Recent, Dedup, Documented;
    FiresAsDocumentedIff(rules, k, run, a);
    RecordedIsArrivedIff(rules[k], Dedup(rules[k], a.event), run, a.at - rules[k].timeframe as real);
  }

  // ---- The documented rule over whole runs ----

  /** The log of a runner that counts every matching event, with the cooldowns of its own fires. */
  function DocumentedLog(r: Rule, dedup: string, run: seq<Arrival>): seq<Entry> {
    if run == [] then [] else
      var before, a := DocumentedLog(r, dedup, run[..|run| - 1]), run[|run| - 1];
      if OfPair(r, dedup, a) then before + [Entry(a.event.id, a.at, ShouldFire(before, r, a.at))] else before
  }

  function Firings(log: seq<Entry>): seq<Entry> {
    if log == [] then [] else
      var before, e := Firings(log[..|log| - 1]), log[|log| - 1];
      if e.fired then before + [e] else before
  }

  lemma {:induction false} CoolingByFirings(log: seq<Entry>, r: Rule, t: real)
    ensures Cooling(log, r, t) <==> Cooling(Firings(log), r, t)
  {
    if log != [] {
      var init, e := log[..|log| - 1], log[|log| - 1];
      CoolingByFirings(init, r, t);
      if e.fired {
        assert (Firings(init) + [e])[..|Firings(init)|] == Firings(init);
      }
    }
  }

  lemma FiringsOfOneMore(log: seq<Entry>, e: Entry)
    ensures Firings(log + [e]) == if e.fired then Firings(log) + [e] else Firings(log)
  {
    assert (log + [e])[..|log|] == log;
  }

  lemma {:induction false} DocumentedCount(r: Rule, dedup: string, run: seq<Arrival>, from: real)
    ensures Recent(DocumentedLog(r, dedup, run), from) == Arrived(r, dedup, run, from)
  {
    if run != [] {
      var init := run[..|run| - 1];
      DocumentedCount(r, dedup, init, from);
      hide ShouldFire, OfPair;
      var log, log' := DocumentedLog(r, dedup, init), DocumentedLog(r, dedup, run);
      assert log' != log ==> log'[..|log'| - 1] == log;
    }
  }

  lemma LogsOfOneMore(r: Rule, dedup: string, run: seq<Arrival>, a: Arrival)
    ensures var log, e := Log(r, dedup, run), Entry(a.event.id, a.at, ShouldFire(Log(r, dedup, run), r, a.at));
            Log(r, dedup, run + [a]) == if OfPair(r, dedup, a) && !Cooling(log, r, a.at) then log + [e] else log
    ensures var log, e := DocumentedLog(r, dedup, run), Entry(a.event.id, a.at, ShouldFire(DocumentedLog(r, dedup, run), r, a.at));
            DocumentedLog(r, dedup, run + [a]) == if OfPair(r, dedup, a) then log + [e] else log
  {
    assert (run + [a])[..|run|] == run && (run + [a])[|run|] == a;
    hide ShouldFire, Cooling, Dedup;
  }

  /** Two logs with the same fires keep having the same fires unless the event falls short. */
  lemma SameFiringsStep(r: Rule, dedup: string, run: seq<Arrival>, a: Arrival)
    requires Firings(Log(r, dedup, run)) == Firings(DocumentedLog(r, dedup, run))
    ensures Firings(Log(r, dedup, run + [a])) == Firings(DocumentedLog(r, dedup, run + [a]))
       <==> !(OfPair(r, dedup, a) && FallsShort(r, run, a))
  {
    hide Log, DocumentedLog, Firings, Cooling, Recent, Arrived, NoneIgnored, Dedup;
    var log, doc, from := Log(r, dedup, run), DocumentedLog(r, dedup, run), a.at - r.timeframe as real;
    LogsOfOneMore(r, dedup, run, a);
    if OfPair(r, dedup, a) {
      CoolingByFirings(log, r, a.at);
      CoolingByFirings(doc, r, a.at);
      DocumentedCount(r, dedup, run, from);
      RecordedIsArrivedIff(r, dedup, run, from);
      FiringsOfOneMore(log, Entry(a.event.id, a.at, ShouldFire(log, r, a.at)));
      FiringsOfOneMore(doc, Entry(a.event.id, a.at, ShouldFire(doc, r, a.at)));
    }
  }

  ghost predicate SameFirings(r: Rule, dedup: string, run: seq<Arrival>, n: nat)
    requires n <= |run|
  {
    forall k: nat :: k <= n ==> Firings(Log(r, dedup, run[..k])) == Firings(DocumentedLog(r, dedup, run[..k]))
  }

  ghost predicate NeverFallsShort(r: Rule, dedup: string, run: seq<Arrival>, n: nat)
    requires n <= |run|
  {
    forall k: nat :: k < n && OfPair(r, dedup, run[k]) ==> !FallsShort(r, run[..k], run[k])
  }

  lemma OneEventMore(r: Rule, dedup: string, run: seq<Arrival>, n: nat)
    requires n < |run|
    ensures var same := Firings(Log(r, dedup, run[..n + 1])) == Firings(DocumentedLog(r, dedup, run[..n + 1]));
            && (SameFirings(r, dedup, run, n + 1) <==> SameFirings(r, dedup, run, n) && same)
            && (NeverFallsShort(r, dedup, run, n + 1) <==>
                  NeverFallsShort(r, dedup, run, n) && !(OfPair(r, dedup, run[n]) && FallsShort(r, run[..n], run[n])))
    ensures SameFirings(r, dedup, run, n) ==> Firings(Log(r, dedup, run[..n])) == Firings(DocumentedLog(r, dedup, run[..n]))
  {
    hide Firings, Log, DocumentedLog, OfPair, FallsShort;
  }

  lemma NoEventYet(r: Rule, dedup: string, run: seq<Arrival>)
    ensures SameFirings(r, dedup, run, 0) && NeverFallsShort(r, dedup, run, 0)
  {
    assert run[..0] == [];
  }

  /** Whole runs: the fires are at every moment those of the documented rule, with the cooldowns
      that its own fires start, if and only if no event has fallen short. */
  lemma {:induction false} RunAsDocumentedIff(r: Rule, dedup: string, run: seq<Arrival>, n: nat)
    requires n <= |run|
    ensures SameFirings(r, dedup, run, n) <==> NeverFallsShort(r, dedup, run, n)
  {
    hide *;
    if n == 0 {
      NoEventYet(r, dedup, run);
    } else {
      RunAsDocumentedIff(r, dedup, run, n - 1);
      OneEventMore(r, dedup, run, n - 1);
      assert run[..n] == run[..n - 1] + [run[n - 1]];
      if Firings(Log(r, dedup, run[..n - 1])) == Firings(DocumentedLog(r, dedup, run[..n - 1])) {
        SameFiringsStep(r, dedup, run[..n - 1], run[n - 1]);
      }
    }
  }

  // ---- An event that falls short ----

  const PAIR_RULE := Rule("pair", 10, 10, 2, _ => true, _ => "")

  function At(id: nat, at: real): Arrival { Arrival(Event(id, map[]), at) }

  const SHORT_RUN := [At(0, 0.0), At(1, 0.0), At(2, 5.0)]

  lemma ShortRunLog()
    ensures Log(PAIR_RULE, "pair", SHORT_RUN) == [Entry(0, 0.0, false), Entry(1, 0.0, true)]
  {
    var r, a, b, c := PAIR_RULE, At(0, 0.0), At(1, 0.0), At(2, 5.0);
    assert SHORT_RUN[..2] == [a, b] && [a, b][..1] == [a] && [a][..0] == [];
    var e, f := Entry(0, 0.0, false), Entry(1, 0.0, true);
    assert [e, f][..1] == [e] && [e][..0] == [];
    assert Log(r, "pair", [a]) == [e];
    assert Log(r, "pair", [a, b]) == [e] + [f];
    assert Cooling([e, f], r, 5.0);
  }

  lemma ShortRunCounts()
    ensures !Cooling(Log(PAIR_RULE, "pair", SHORT_RUN), PAIR_RULE, 10.0) && Recent(Log(PAIR_RULE, "pair", SHORT_RUN), 0.0) == 0
  {
    ShortRunLog();
    hide Log;
    var r, e, f := PAIR_RULE, Entry(0, 0.0, false), Entry(1, 0.0, true);
    assert [e, f][..1] == [e] && [e][..0] == [];
    assert !Cooling([e], r, 10.0) && Recent([e], 0.0) == 0;
  }

  lemma ShortRunArrivals()
    ensures Arrived(PAIR_RULE, "pair", SHORT_RUN, 0.0) == 1 && Proper(SHORT_RUN + [At(3, 10.0)])
  {
    assert SHORT_RUN[..2] == [At(0, 0.0), At(1, 0.0)] && SHORT_RUN[..2][..1] == [At(0, 0.0)] && [At(0, 0.0)][..0] == [];
  }

  /** Two events in ten seconds make this rule fire. It fires at 0; an event at 5 comes during the
      cooldown and is not recorded; so the event at 10 is the second in ten seconds, outside
      cooldown, and the rule does not fire. */
  lemma CooldownHidesEvents()
    ensures var r, run, a := PAIR_RULE, SHORT_RUN, At(3, 10.0);
            && Sound([r]) && Proper(run + [a])
            && FallsShort(r, run, a) && Documented(r, run, a)
            && !Fires(AppliedAll(Ran([r], run), [r][..0], a.event, a.at), r, a.event, a.at)
  {
    var r, run, a := PAIR_RULE, SHORT_RUN, At(3, 10.0);
    hide Log, Cooling, Recent, Arrived, Fires, AppliedAll, Ran, Proper;
    ShortRunCounts();
    ShortRunArrivals();
    assert [r][0] == r;
    FiresAsDocumentedIff([r], 0, run, a);
  }

  // ---- Keys keep events apart ----

  /** The arrivals whose rendered key, or the rule's identifier where nothing is rendered, is `key`. */
  function WithKey(r: Rule, key: string, run: seq<Arrival>): seq<Arrival> {
    Filtered(run, (b: Arrival) => (if r.renderDedupKey(b.event) != "" then r.renderDedupKey(b.event) else r.id) == key)
  }

  lemma WithKeyOneMore(r: Rule, key: string, run: seq<Arrival>, b: Arrival)
    ensures WithKey(r, key, run + [b])
         == if (if r.renderDedupKey(b.event) != "" then r.renderDedupKey(b.event) else r.id) == key then WithKey(r, key, run) + [b]
            else WithKey(r, key, run)
  {
    var keep := (x: Arrival) => (if r.renderDedupKey(x.event) != "" then r.renderDedupKey(x.event) else r.id) == key;
    FilteredConcat(run, [b], keep);
    assert Filtered([b], keep) == if keep(b) then [b] else [];
  }

  lemma LogOneMore(r: Rule, dedup: string, run: seq<Arrival>, b: Arrival)
    ensures var log := Log(r, dedup, run);
            Log(r, dedup, run + [b])
            == if r.matches(b.event) && Dedup(r, b.event) == dedup && !Cooling(log, r, b.at)
               then log + [Entry(b.event.id, b.at, ShouldFire(log, r, b.at))] else log
  {
    assert (run + [b])[..|run|] == run;
    hide ShouldFire, Cooling, Dedup;
  }

  lemma {:induction false} LogOfKey(r: Rule, key: string, run: seq<Arrival>)
    ensures Log(r, key, run) == Log(r, key, WithKey(r, key, run))
  {
    if run != [] {
      var before, b := run[..|run| - 1], run[|run| - 1];
      LogOfKey(r, key, before);
      assert run == before + [b];
      WithKeyOneMore(r, key, before, b);
      LogOneMore(r, key, before, b);
      LogOneMore(r, key, WithKey(r, key, before), b);
      hide Log, WithKey, ShouldFire, Cooling;
    }
  }

  lemma {:induction false} ProperWithKey(r: Rule, key: string, run: seq<Arrival>)
    requires Proper(run)
    ensures Proper(WithKey(r, key, run)) && forall b :: b in WithKey(r, key, run) ==> b in run
  {
    if run != [] {
      var before, b := run[..|run| - 1], run[|run| - 1];
      assert run == before + [b];
      ProperPrefix(before, b);
      ProperWithKey(r, key, before);
      WithKeyOneMore(r, key, before, b);
      var kept := WithKey(r, key, before);
      hide WithKey;
      ProperAppend(kept, before, b);
    }
  }

  lemma ProperAppend(kept: seq<Arrival>, before: seq<Arrival>, b: Arrival)
    requires Proper(kept) && Proper(before + [b]) && forall c :: c in kept ==> c in before
    ensures Proper(kept + [b])
  {
    var run := before + [b];
    forall i | 0 <= i < |kept| ensures kept[i].at <= b.at && kept[i].event.id != b.event.id && 0.0 <= b.at {
      assert kept[i] in before;
      var j :| 0 <= j < |before| && before[j] == kept[i];
      assert run[j] == kept[i] && run[|before|] == b;
    }
    assert 0.0 <= run[|before|].at;
  }

  /** On every proper run, events of other keys have no influence: deleting them leaves the fire of
      rule `k` on the next event, and its count, as they were. */
  lemma OtherKeysDoNotMatter(rules: seq<Rule>, k: nat, run: seq<Arrival>, a: Arrival)
    requires Sound(rules) && k < |rules| && Proper(run + [a])
    ensures var r := rules[k];
            var key := if r.renderDedupKey(a.event) != "" then r.renderDedupKey(a.event) else r.id;
            var s := AppliedAll(Ran(rules, run), rules[..k], a.event, a.at);
            var s' := AppliedAll(Ran(rules, WithKey(r, key, run)), rules[..k], a.event, a.at);
            && (Fires(s, r, a.event, a.at) <==> Fires(s', r, a.event, a.at))
            && CountWith(s, r, a.event, a.at) == CountWith(s', r, a.event, a.at)
  {
    var r := rules[k];
    var key := if r.renderDedupKey(a.event) != "" then r.renderDedupKey(a.event) else r.id;
    assert key == Dedup(r, a.event);
    hide Log, WithKey, AppliedAll, Ran, Fires, CountWith, ShouldFire, Proper, Sound, Dedup;
    ProperPrefix(run, a);
    ProperWithKey(r, key, run);
    ProperAppend(WithKey(r, key, run), run, a);
    FiresIffNaive(rules, k, run, a);
    FiresIffNaive(rules, k, WithKey(r, key, run), a);
    LogOfKey(r, key, run);
  }

  /** Every fire that is returned is of one of the rules, on the event itself, under the rendered
      key or, where nothing is rendered, under the rule's identifier; and the rule matches. */
  lemma {:induction false} FireCarriesKey(s: Store, rules: seq<Rule>, ev: Event, t: real, f: Fire) returns (k: nat)
    requires f in FiresAll(s, rules, ev, t)
    ensures k < |rules| && f.ruleId == rules[k].id && f.event == ev && rules[k].matches(ev) && f.count >= rules[k].count
    ensures f.dedup == if rules[k].renderDedupKey(ev) != "" then rules[k].renderDedupKey(ev) else rules[k].id
  {
    hide AppliedAll, CountWith;
    k := |rules| - 1;
    if f in FiresAll(s, rules[..k], ev, t) {
      k := FireCarriesKey(s, rules[..k], ev, t, f);
    }
  }
}
