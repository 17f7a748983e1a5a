/**
 The threat state machine (agent/pkg/engine/engine.go): a transition table indexed by status
 and event kind, a store of per-subject statuses and a log of alerts.
 */
module EngineModel {
  import opened Numbers

  type byte = x: nat | x < 0x100

  const NOMINAL: byte := 0
  const CHALLENGE: byte := 1
  const DECEPTION: byte := 2
  const CONTAINMENT: byte := 3

  const RATE_LIMIT_TRIP: byte := 8
  const HTTP_REQUEST: byte := 9
  const HTTP2_FRAME: byte := 10
  const WEB_SOCKET_FRAME: byte := 11
  const CANARY_TOUCH: byte := 12
  const CHALLENGE_FAIL: byte := 13
  const CFI_EXIT: byte := 15

  const KINDS := 16

  datatype Event = Event(kind: byte, subject: uint32, timestampNS: nat, payload0: uint32, payload1: uint32)

  datatype Alert = Alert(subject: uint32, from: byte, to: byte, event: Event, reason: string)

  /** What the engine has written so far. */
  datatype State = State(store: map<uint32, byte>, alerts: seq<Alert>)

  const EMPTY := State(map[], [])

  /** The kinds that move a subject from level `i` to level `i + 1`. */
  const CHAIN: seq<set<byte>> := [
    {CANARY_TOUCH, RATE_LIMIT_TRIP},
    {CHALLENGE_FAIL},
    {CANARY_TOUCH, CFI_EXIT}
  ]

  function Advance(status: byte, kind: byte): byte {
    if status < |CHAIN| && kind in CHAIN[status] then status + 1 else status
  }

  function Reason(kind: byte): string {
    if kind == CANARY_TOUCH then "canary_touch"
    else if kind == RATE_LIMIT_TRIP then "rate_limit_trip"
    else if kind == CHALLENGE_FAIL then "challenge_fail"
    else if kind == CFI_EXIT then "cfi_exit"
    else ""
  }

  /** The stored status; an unknown subject and a garbage value count as nominal. */
  function Current(store: map<uint32, byte>, subject: uint32): byte {
    if subject in store && store[subject] <= CONTAINMENT then store[subject] else NOMINAL
  }

  function Processed(st: State, ev: Event): State {
    var cur := Current(st.store, ev.subject);
    var next := Advance(cur, ev.kind);
    if ev.subject == 0 || next == cur then st
    else State(st.store[ev.subject := next], st.alerts + [Alert(ev.subject, cur, next, ev, Reason(ev.kind))])
  }

  function ProcessedAll(st: State, events: seq<Event>): State {
    if events == [] then st else Processed(ProcessedAll(st, events[..|events| - 1]), events[|events| - 1])
  }

  /** One event, spelled out: five moves of tracked subjects, each with its alert, and nothing
      else changes anything. */
  lemma ProcessedIs(st: State, ev: Event)
    ensures var cur := if ev.subject in st.store && st.store[ev.subject] <= 3 then st.store[ev.subject] else 0;
            var move := if cur == 0 && ev.kind == 12 then (1, "canary_touch")
                        else if cur == 0 && ev.kind == 8 then (1, "rate_limit_trip")
                        else if cur == 1 && ev.kind == 13 then (2, "challenge_fail")
                        else if cur == 2 && ev.kind == 12 then (3, "canary_touch")
                        else if cur == 2 && ev.kind == 15 then (3, "cfi_exit")
                        else (cur, "");
            if ev.subject == 0 || move.0 == cur then Processed(st, ev) == st
            else Processed(st, ev) == State(st.store[ev.subject := move.0],
                                            st.alerts + [Alert(ev.subject, cur, move.0, ev, move.1)])
  {
  }

  lemma ProcessedNone(st: State)
    ensures ProcessedAll(st, []) == st
  {
  }

  lemma ProcessedOne(st: State, ev: Event)
    ensures ProcessedAll(st, [ev]) == Processed(st, ev)
  {
    assert [ev][..0] == [];
  }

  lemma {:induction false} ProcessedConcat(st: State, a: seq<Event>, b: seq<Event>)
    ensures ProcessedAll(st, a + b) == ProcessedAll(ProcessedAll(st, a), b)
  {
    if b == [] {
      assert a + b == a;
    } else {
      ProcessedConcat(st, a, b[..|b| - 1]);
      assert (a + b)[..|a + b| - 1] == a + b[..|b| - 1];
    }
  }

  // ---- What a run means for one subject ----

  function OwnKinds(events: seq<Event>, subject: uint32): seq<byte> {
    if events == [] then [] else
      var before := OwnKinds(events[..|events| - 1], subject);
      var ev := events[|events| - 1];
      if ev.subject == subject then before + [ev.kind] else before
  }

  function OwnAlerts(alerts: seq<Alert>, subject: uint32): seq<Alert> {
    if alerts == [] then [] else
      var before := OwnAlerts(alerts[..|alerts| - 1], subject);
      var a := alerts[|alerts| - 1];
      if a.subject == subject then before + [a] else before
  }

  /** `kinds` has elements from the sets of `pattern`, in that order, not necessarily adjacent. */
  ghost predicate ContainsInOrder(kinds: seq<byte>, pattern: seq<set<byte>>) {
    exists at: seq<nat> :: Witnesses(kinds, pattern, at)
  }

  ghost predicate Witnesses(kinds: seq<byte>, pattern: seq<set<byte>>, at: seq<nat>) {
    && |at| == |pattern|
    && (forall i :: 0 <= i < |at| ==> at[i] < |kinds| && kinds[at[i]] in pattern[i])
    && (forall i, j :: 0 <= i < j < |at| ==> at[i] < at[j])
  }

  lemma ContainsStep(kinds: seq<byte>, kind: byte, pattern: seq<set<byte>>)
    requires pattern != []
    ensures var n := |pattern| - 1;
            ContainsInOrder(kinds + [kind], pattern)
            <==> ContainsInOrder(kinds, pattern) || (kind in pattern[n] && ContainsInOrder(kinds, pattern[..n]))
  {
    var n, longer := |pattern| - 1, kinds + [kind];
    if ContainsInOrder(longer, pattern) {
      var at: seq<nat> :| Witnesses(longer, pattern, at);
      if at[n] < |kinds| {
        assert Witnesses(kinds, pattern, at);
      } else {
        assert Witnesses(kinds, pattern[..n], at[..n]);
      }
    }
    if ContainsInOrder(kinds, pattern) {
      var at: seq<nat> :| Witnesses(kinds, pattern, at);
      assert Witnesses(longer, pattern, at);
    }
    if kind in pattern[n] && ContainsInOrder(kinds, pattern[..n]) {
      var at: seq<nat> :| Witnesses(kinds, pattern[..n], at);
      assert Witnesses(longer, pattern, at + [|kinds|]);
    }
  }

  /** The level reached by the kinds of one subject. */
  function Level(kinds: seq<byte>): (l: byte)
    ensures l <= CONTAINMENT
  {
    if kinds == [] then NOMINAL else Advance(Level(kinds[..|kinds| - 1]), kinds[|kinds| - 1])
  }

  lemma {:induction false} LevelIffContains(kinds: seq<byte>, n: nat)
    requires n <= |CHAIN|
    ensures Level(kinds) >= n <==> ContainsInOrder(kinds, CHAIN[..n])
    decreases |kinds|
  {
    if n == 0 {
      assert Witnesses(kinds, CHAIN[..0], []);
    } else if kinds == [] {
      assert forall at :: !Witnesses(kinds, CHAIN[..n], at) by {
        forall at | |at| == n ensures !Witnesses(kinds, CHAIN[..n], at) {
          assert !(at[0] < |kinds|);
        }
      }
    } else {
      var before, kind := kinds[..|kinds| - 1], kinds[|kinds| - 1];
      LevelIffContains(before, n);
      LevelIffContains(before, n - 1);
      assert kinds == before + [kind] && CHAIN[..n][..n - 1] == CHAIN[..n - 1];
      ContainsStep(before, kind, CHAIN[..n]);
    }
  }

  lemma {:induction false} StatusIsLevel(events: seq<Event>, subject: uint32)
    requires subject != 0
    ensures var st := ProcessedAll(EMPTY, events);
            Current(st.store, subject) == Level(OwnKinds(events, subject))
  {
    if events != [] {
      StatusIsLevel(events[..|events| - 1], subject);
    }
  }

  /** From an empty store, a subject has reached level `n` exactly when its own events contain,
      in order, kinds that lead there; the events of other subjects play no part. */
  lemma ReachesLevelIff(events: seq<Event>, subject: uint32, n: nat)
    requires subject != 0 && n <= |CHAIN|
    ensures Current(ProcessedAll(EMPTY, events).store, subject) >= n
       <==> ContainsInOrder(OwnKinds(events, subject), CHAIN[..n])
  {
    StatusIsLevel(events, subject);
    LevelIffContains(OwnKinds(events, subject), n);
  }

  lemma ContainmentIff(events: seq<Event>, subject: uint32)
    requires subject != 0
    ensures Current(ProcessedAll(EMPTY, events).store, subject) == CONTAINMENT
       <==> ContainsInOrder(OwnKinds(events, subject),
                            [{CANARY_TOUCH, RATE_LIMIT_TRIP}, {CHALLENGE_FAIL}, {CANARY_TOUCH, CFI_EXIT}])
  {
    ReachesLevelIff(events, subject, 3);
    StatusIsLevel(events, subject);
    assert CHAIN[..3] == CHAIN;
  }

  /** From any store, statuses never go down. */
  lemma {:induction false} StatusNeverDecreases(st: State, events: seq<Event>, subject: uint32)
    ensures Current(st.store, subject) <= Current(ProcessedAll(st, events).store, subject)
  {
    if events != [] {
      StatusNeverDecreases(st, events[..|events| - 1], subject);
    }
  }

  /** One alert per level reached, in order, each for an event of the subject itself. */
  ghost predicate AlertChain(alerts: seq<Alert>, subject: uint32, status: byte) {
    && |alerts| == status
    && forall i :: 0 <= i < |alerts| ==>
         && alerts[i].subject == alerts[i].event.subject == subject
         && alerts[i].from == i && alerts[i].to == i + 1 <= CONTAINMENT
         && alerts[i].event.kind in CHAIN[i]
         && alerts[i].reason == Reason(alerts[i].event.kind)
  }

  lemma {:induction false} AlertsFollowChain(events: seq<Event>, subject: uint32)
    requires subject != 0
    ensures var st := ProcessedAll(EMPTY, events);
            AlertChain(OwnAlerts(st.alerts, subject), subject, Current(st.store, subject))
  {
    if events != [] {
      var before, ev := events[..|events| - 1], events[|events| - 1];
      AlertsFollowChain(before, subject);
      var st, st' := ProcessedAll(EMPTY, before), ProcessedAll(EMPTY, events);
      assert st' == Processed(st, ev);
      hide ProcessedAll, Reason;
      if st' != st {
        assert st'.alerts[..|st'.alerts| - 1] == st.alerts;
      }
    }
  }
}

module Engine {
  import opened EngineModel
  import opened Numbers

  /** The closures of the transition table: stay, or go to a fixed target with a fixed reason. */
  datatype Transition = Noop | Simple(target: byte, reason: string) {
    function Apply(status: byte): (byte, string) {
      match this
      case Noop => (status, "")
      case Simple(target, reason) => (target, reason)
    }
  }

  class Engine {
    const table: array<Transition>
    var store: map<uint32, byte>
    var alerts: seq<Alert>

    ghost function Abstract(): State
      reads this
    {
      State(store, alerts)
    }

    /** Every entry of the table agrees with the chain. */
    ghost predicate Valid()
      reads this, table
    {
      && table.Length == 4 * KINDS
      && forall s: byte, k: byte :: s <= CONTAINMENT && k < KINDS ==> Installed(s, k)
    }

    ghost predicate Installed(s: byte, k: byte)
      requires table.Length == 4 * KINDS && s <= CONTAINMENT && k < KINDS
      reads table
    {
      var (next, reason) := table[s * KINDS + k].Apply(s);
      next == Advance(s, k) && (next != s ==> reason == Reason(k))
    }

    constructor (store: map<uint32, byte>)
      ensures Valid() && Abstract() == State(store, []) && fresh(table)
    {
      this.store := store;
      alerts := [];
      table := new Transition[4 * KINDS](_ => Noop);
      new;
      InstallDefaults();
    }

    method InstallDefaults()
      requires table.Length == 4 * KINDS
      modifies table
      ensures Valid()
    {
      for i := 0 to table.Length
        invariant forall j :: 0 <= j < i ==> table[j] == Noop
      {
        table[i] := Noop;
      }
      table[NOMINAL * KINDS + CANARY_TOUCH] := Simple(CHALLENGE, "canary_touch");
      table[NOMINAL * KINDS + RATE_LIMIT_TRIP] := Simple(CHALLENGE, "rate_limit_trip");
      table[CHALLENGE * KINDS + CHALLENGE_FAIL] := Simple(DECEPTION, "challenge_fail");
      table[DECEPTION * KINDS + CANARY_TOUCH] := Simple(CONTAINMENT, "canary_touch");
      table[DECEPTION * KINDS + CFI_EXIT] := Simple(CONTAINMENT, "cfi_exit");
    }

    method Process(ev: Event) returns (status: byte, changed: bool)
      requires Valid()
      modifies this
      ensures Valid() && Abstract() == Processed(old(Abstract()), ev)
      ensures status == if ev.subject == 0 then NOMINAL else Current(store, ev.subject)
      ensures changed <==> Abstract() != old(Abstract())
    {
      if ev.subject == 0 {
        return NOMINAL, false;
      }
      var cur := if ev.subject in store then store[ev.subject] else NOMINAL;
      if cur >= 4 {
        cur := NOMINAL;
      }
      if ev.kind >= KINDS {
        return cur, false;
      }
      var (next, reason) := table[cur * KINDS + ev.kind].Apply(cur);
      assert Installed(cur, ev.kind);
      if next == cur {
        return cur, false;
      }
      store := store[ev.subject := next];
      alerts := alerts + [Alert(ev.subject, cur, next, ev, reason)];
      return next, true;
    }

    method ProcessBatch(events: seq<Event>)
      requires Valid()
      modifies this
      ensures Valid() && Abstract() == ProcessedAll(old(Abstract()), events)
    {
      for i := 0 to |events|
        invariant Valid() && Abstract() == ProcessedAll(old(Abstract()), events[..i])
      {
        var status, changed := Process(events[i]);
        assert events[..i + 1][..i] == events[..i];
      }
      assert events[..|events|] == events;
    }

    method Run(script: seq<Read>) returns (cancelled: bool)
      requires Valid()
      modifies this
      ensures Valid() && Abstract() == ProcessedAll(old(Abstract()), Consumed(script))
      ensures cancelled <==> exists n :: 0 <= n < |script| && script[n].cancelled
                                         && forall i :: 0 <= i < n ==> !script[i].cancelled && !script[i].closed
    {
      hide ProcessedAll;
      ghost var done: seq<Event> := [];
      ProcessedNone(Abstract());
      for r := 0 to |script|
        invariant Valid() && Abstract() == ProcessedAll(old(Abstract()), done)
        invariant Consumed(script) == done + Consumed(script[r..])
        invariant forall i :: 0 <= i < r ==> !script[i].cancelled && !script[i].closed
      {
        assert script[r..][0] == script[r] && script[r..][1..] == script[r + 1..];
        if script[r].cancelled {
          assert Consumed(script) == done;
          return true;
        }
        ProcessBatch(script[r].events);
        ProcessedConcat(old(Abstract()), done, script[r].events);
        done := done + script[r].events;
        if script[r].closed {
          return false;
        }
      }
      assert Consumed(script) == done;
      return false;
    }
  }

  /** One turn of the event loop: whether the context was found cancelled before it, and what
      the event source answered. */
  datatype Read = Read(cancelled: bool, events: seq<Event>, closed: bool)

  /** The events a run processes: up to a cancellation, and including the batch that comes with
      the end of the source. */
  function Consumed(script: seq<Read>): seq<Event> {
    if script == [] || script[0].cancelled then []
    else if script[0].closed then script[0].events
    else script[0].events + Consumed(script[1..])
  }

  function Batches(script: seq<Read>): seq<Event> {
    if script == [] then [] else Batches(script[..|script| - 1]) + script[|script| - 1].events
  }

  lemma BatchesOfOneMore(a: seq<Read>, r: Read)
    ensures Batches(a + [r]) == Batches(a) + r.events
  {
    assert (a + [r])[..|a|] == a;
  }

  lemma SplitLast(a: seq<Read>, b: seq<Read>)
    requires b != []
    ensures var init, r := b[..|b| - 1], b[|b| - 1]; a + b == (a + init) + [r] && b == init + [r]
  {
  }

  lemma {:induction false} BatchesConcat(a: seq<Read>, b: seq<Read>)
    ensures Batches(a + b) == Batches(a) + Batches(b)
  {
    if b == [] {
      assert a + b == a;
    } else {
      hide *;
      var init, r := b[..|b| - 1], b[|b| - 1];
      SplitLast(a, b);
      BatchesConcat(a, init);
      BatchesOfOneMore(a + init, r);
      BatchesOfOneMore(init, r);
      assert Batches(a) + (Batches(init) + r.events) == (Batches(a) + Batches(init)) + r.events;
    }
  }

  /** The loop takes the first `n` turns: none of them was cancelled, none before the last was the
      end of the source, and what stops it is a cancellation, the end of the source, which comes
      with a batch of its own, or the end of the script. */
  ghost predicate TakesTurns(script: seq<Read>, n: nat) {
    && n <= |script|
    && (forall i :: 0 <= i < n ==> !script[i].cancelled)
    && (forall i :: 0 <= i < n - 1 ==> !script[i].closed)
    && (n == |script| || script[n].cancelled || (n > 0 && script[n - 1].closed))
  }

  lemma TakesOneMore(script: seq<Read>, m: nat)
    requires script != [] && !script[0].cancelled && !script[0].closed && TakesTurns(script[1..], m)
    ensures TakesTurns(script, m + 1)
  {
    assert forall i :: 0 < i < |script| ==> script[i] == script[1..][i - 1];
  }

  lemma {:induction false} ConsumedIs(script: seq<Read>) returns (n: nat)
    ensures TakesTurns(script, n) && Consumed(script) == Batches(script[..n])
  {
    if script == [] || script[0].cancelled {
      n := 0;
    } else if script[0].closed {
      n := 1;
      assert script[..1] == [script[0]] && [script[0]][..0] == [];
    } else {
      var m := ConsumedIs(script[1..]);
      n := m + 1;
      TakesOneMore(script, m);
      assert [script[0]][..0] == [] && Batches([script[0]]) == script[0].events;
      assert script[..n] == [script[0]] + script[1..][..m];
      BatchesConcat([script[0]], script[1..][..m]);
      hide TakesTurns;
    }
  }
}
