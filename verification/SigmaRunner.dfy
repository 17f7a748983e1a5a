/**
 The Sigma rule runner (server/src/zaqorincore_server/rule_engine/runner.py): per rule and
 dedup key, a Redis sorted set of event times and a cooldown key, both of which expire.
 */
module SigmaModel {

  datatype Event = Event(id: nat, metadata: map<string, string>)

  /** `matches` and `renderDedupKey` stand for the compiled Sigma rule, and are arbitrary. */
  datatype Rule = Rule(id: string, timeframe: int, cooldown: int, count: int,
                       matches: Event -> bool, renderDedupKey: Event -> string)

  type Pair = (string, string)

  type Scores = map<nat, real>

  datatype ZSet = ZSet(scores: Scores, expiresAt: real)

  /** What Redis holds: sorted sets with their expiry, and the expiry of each cooldown key. */
  datatype Store = Store(zsets: map<Pair, ZSet>, cooldowns: map<Pair, real>)

  const EMPTY := Store(map[], map[])

  function Dedup(r: Rule, ev: Event): string {
    if r.renderDedupKey(ev) == "" then r.id else r.renderDedupKey(ev)
  }

  function PairOf(r: Rule, ev: Event): Pair { (r.id, Dedup(r, ev)) }

  predicate WellFormed(r: Rule) { r.timeframe > 0 && r.cooldown > 0 }

  // ---- The Redis commands, on keys that expire ----

  predicate InCooldown(s: Store, p: Pair, t: real) { p in s.cooldowns && t < s.cooldowns[p] }

  function Live(s: Store, p: Pair, t: real): Scores {
    if p in s.zsets && t < s.zsets[p].expiresAt then s.zsets[p].scores else map[]
  }

  /** ZREMRANGEBYSCORE from 0 to `upTo`, both included. */
  function RemoveRange(m: Scores, upTo: real): Scores {
    map id | id in m && !(0.0 <= m[id] <= upTo) :: m[id]
  }

  function Kept(s: Store, p: Pair, r: Rule, t: real): Scores {
    RemoveRange(Live(s, p, t), t - r.timeframe as real)
  }

  function Lifetime(r: Rule): real {
    (if r.timeframe * 10 >= 60 then r.timeframe * 10 else 60) as real
  }

  // ---- One rule, one event ----

  predicate Evaluated(s: Store, r: Rule, ev: Event, t: real) {
    r.matches(ev) && !InCooldown(s, PairOf(r, ev), t)
  }

  function CountWith(s: Store, r: Rule, ev: Event, t: real): nat {
    |Kept(s, PairOf(r, ev), r, t)| + 1
  }

  predicate Fires(s: Store, r: Rule, ev: Event, t: real) {
    Evaluated(s, r, ev, t) && CountWith(s, r, ev, t) >= r.count
  }

  function Applied(s: Store, r: Rule, ev: Event, t: real): Store {
    if !Evaluated(s, r, ev, t) then s else
      var p := PairOf(r, ev);
      Store(s.zsets[p := ZSet(Kept(s, p, r, t)[ev.id := t], t + Lifetime(r))],
            if Fires(s, r, ev, t) then s.cooldowns[p := t + r.cooldown as real] else s.cooldowns)
  }

  datatype Fire = Fire(ruleId: string, event: Event, dedup: string, count: nat)

  function FiresOf(s: Store, r: Rule, ev: Event, t: real): seq<Fire> {
    if Fires(s, r, ev, t) then [Fire(r.id, ev, Dedup(r, ev), CountWith(s, r, ev, t))] else []
  }

  lemma NotEvaluated(s: Store, r: Rule, ev: Event, t: real)
    requires !Evaluated(s, r, ev, t)
    ensures Applied(s, r, ev, t) == s && FiresOf(s, r, ev, t) == []
  {
  }

  lemma WhenEvaluated(s: Store, r: Rule, ev: Event, t: real, n: nat)
    requires Evaluated(s, r, ev, t) && n == |Kept(s, PairOf(r, ev), r, t)|
    ensures var p := PairOf(r, ev);
            var zsets := s.zsets[p := ZSet(Kept(s, p, r, t)[ev.id := t], t + Lifetime(r))];
            if n + 1 < r.count then
              Applied(s, r, ev, t) == Store(zsets, s.cooldowns) && FiresOf(s, r, ev, t) == []
            else
              && Applied(s, r, ev, t) == Store(zsets, s.cooldowns[p := t + r.cooldown as real])
              && FiresOf(s, r, ev, t) == [Fire(r.id, ev, Dedup(r, ev), n + 1)]
  {
    hide Kept, Lifetime, Dedup, InCooldown;
  }

  /** What one evaluation writes: the event with its time in the sorted set of its key, which lives
      for ten timeframes and at least a minute, and at a fire the cooldown key; no other key. */
  lemma AppliedWrites(s: Store, r: Rule, ev: Event, t: real)
    ensures var key := (r.id, if r.renderDedupKey(ev) != "" then r.renderDedupKey(ev) else r.id);
            var s' := Applied(s, r, ev, t);
            && (forall q :: q != key ==> (q in s'.zsets <==> q in s.zsets) && (q in s.zsets ==> s'.zsets[q] == s.zsets[q]))
            && (forall q :: q != key ==>
                  (q in s'.cooldowns <==> q in s.cooldowns) && (q in s.cooldowns ==> s'.cooldowns[q] == s.cooldowns[q]))
            && (Evaluated(s, r, ev, t) ==>
                  && key in s'.zsets && ev.id in s'.zsets[key].scores && s'.zsets[key].scores[ev.id] == t
                  && s'.zsets[key].expiresAt == t + (if r.timeframe >= 6 then r.timeframe * 10 else 60) as real)
            && (Fires(s, r, ev, t) ==> key in s'.cooldowns && s'.cooldowns[key] == t + r.cooldown as real)
            && (!Evaluated(s, r, ev, t) ==> s' == s)
  {
    hide Kept;
  }

  // ---- All rules, one event ----

  function AppliedAll(s: Store, rules: seq<Rule>, ev: Event, t: real): Store {
    if rules == [] then s else Applied(AppliedAll(s, rules[..|rules| - 1], ev, t), rules[|rules| - 1], ev, t)
  }

  function FiresAll(s: Store, rules: seq<Rule>, ev: Event, t: real): seq<Fire> {
    if rules == [] then [] else
      var init, r := rules[..|rules| - 1], rules[|rules| - 1];
      var s' := AppliedAll(s, init, ev, t);
      FiresAll(s, init, ev, t) + FiresOf(s', r, ev, t)
  }

  // ---- A run ----

  datatype Arrival = Arrival(event: Event, at: real)

  function Ran(rules: seq<Rule>, run: seq<Arrival>): Store {
    if run == [] then EMPTY else
      AppliedAll(Ran(rules, run[..|run| - 1]), rules, run[|run| - 1].event, run[|run| - 1].at)
  }
}

module SigmaRunner {
  import opened SigmaModel

  class SigmaRuleRunner {
    var zsets: map<Pair, ZSet>
    var cooldowns: map<Pair, real>
    var rules: seq<Rule>

    ghost function Abstract(): Store
      reads this
    {
      Store(zsets, cooldowns)
    }

    constructor (rules: seq<Rule>)
      ensures Abstract() == EMPTY && this.rules == rules
    {
      zsets, cooldowns := map[], map[];
      this.rules := rules;
    }

    /** `_count_in_window`: trims the sorted set, and returns its cardinality. */
    method CountInWindow(r: Rule, p: Pair, now: real) returns (n: nat)
      modifies this`zsets
      ensures n == |Kept(old(Abstract()), p, r, now)|
      ensures Kept(Abstract(), p, r, now) == Live(Abstract(), p, now) == Kept(old(Abstract()), p, r, now)
      ensures zsets.Keys <= old(zsets).Keys && forall q :: q != p ==>
        (q in zsets <==> q in old(zsets)) && (q in zsets ==> zsets[q] == old(zsets)[q])
    {
      var windowStart := now - r.timeframe as real;
      var live := Live(Store(zsets, cooldowns), p, now);
      var kept := RemoveRange(live, windowStart);
      if kept == map[] {
        zsets := zsets - {p};
      } else {
        zsets := zsets[p := zsets[p].(scores := kept)];
      }
      assert RemoveRange(kept, windowStart) == kept;
      return |kept|;
    }

    /** `_record_event`: adds the event to the sorted set, and renews its expiry. */
    method RecordEvent(r: Rule, p: Pair, now: real, id: nat)
      modifies this`zsets
      ensures zsets == old(zsets)[p := ZSet(Live(old(Abstract()), p, now)[id := now], now + Lifetime(r))]
    {
      var live := Live(Store(zsets, cooldowns), p, now);
      zsets := zsets[p := ZSet(live[id := now], now + Lifetime(r))];
    }

    /** The loop body of `evaluate`. */
    method EvaluateRule(rule: Rule, ev: Event, now: real) returns (fires: seq<Fire>)
      modifies this`zsets, this`cooldowns
      ensures Abstract() == Applied(old(Abstract()), rule, ev, now)
      ensures fires == FiresOf(old(Abstract()), rule, ev, now)
    {
      ghost var s := Abstract();
      if !rule.matches(ev) {
        NotEvaluated(s, rule, ev, now);
        return [];
      }
      var dedup := Dedup(rule, ev);
      var p := (rule.id, dedup);
      if p in cooldowns && now < cooldowns[p] {
        NotEvaluated(s, rule, ev, now);
        return [];
      }
      assert Evaluated(s, rule, ev, now);
      hide Kept, Live, RemoveRange, Lifetime, Dedup, Applied, FiresOf, Evaluated;
      var n := CountInWindow(rule, p, now);
      WhenEvaluated(s, rule, ev, now, n);
      RecordEvent(rule, p, now, ev.id);
      assert zsets == s.zsets[p := ZSet(Kept(s, p, rule, now)[ev.id := now], now + Lifetime(rule))];
      if n + 1 < rule.count {
        return [];
      }
      cooldowns := cooldowns[p := now + rule.cooldown as real];
      return [Fire(rule.id, ev, dedup, n + 1)];
    }

    method Evaluate(ev: Event, now: real) returns (fires: seq<Fire>)
      modifies this`zsets, this`cooldowns
      ensures Abstract() == AppliedAll(old(Abstract()), rules, ev, now)
      ensures fires == FiresAll(old(Abstract()), rules, ev, now)
    {
      hide Applied, FiresOf;
      fires := [];
      for i := 0 to |rules|
        invariant Abstract() == AppliedAll(old(Abstract()), rules[..i], ev, now)
        invariant fires == FiresAll(old(Abstract()), rules[..i], ev, now)
      {
        assert rules[..i + 1][..i] == rules[..i];
        var fired := EvaluateRule(rules[i], ev, now);
        fires := fires + fired;
      }
      assert rules[..|rules|] == rules;
    }
  }
}
