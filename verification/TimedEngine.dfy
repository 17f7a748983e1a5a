/**
 The timing gate in front of the threat state machine (agent/pkg/engine/timed.go).
 */
module TimedModel {
  import opened Counting
  import opened EngineModel
  import opened Numbers
  import opened Int64Arithmetic
  import Timing
  import TimingBounds
  import TimingModel

  /** The engine state and the tracked timing histories. */
  datatype TimedState = TimedState(engine: State, tracked: Timing.Histories)

  predicate IsTimingEvent(kind: byte) {
    kind == HTTP_REQUEST || kind == HTTP2_FRAME || kind == WEB_SOCKET_FRAME
  }

  predicate Gated(ev: Event) { ev.subject != 0 && IsTimingEvent(ev.kind) }

  /** The histories after the gate has seen `ev`: a gated event is recorded, then looked up. */
  function Observed(m: Timing.Histories, ev: Event): Timing.Histories {
    if Gated(ev) then Timing.Touched(Timing.Recorded(m, ev.subject, ev.payload0), ev.subject) else m
  }

  /** A gated event is late when its round trip exceeds the budget that includes it. */
  predicate Late(m: Timing.Histories, ev: Event) {
    ev.payload0 > Timing.BudgetOf(Observed(m, ev), ev.subject)
  }

  /** What the gate hands to the engine: nothing for a gated event within budget, a rate-limit
      trip for a late one, and any other event unchanged. */
  function Passed(m: Timing.Histories, ev: Event): seq<Event> {
    if !Gated(ev) then [ev] else if Late(m, ev) then [ev.(kind := RATE_LIMIT_TRIP)] else []
  }

  function TimedStep(st: TimedState, ev: Event): TimedState {
    TimedState(ProcessedAll(st.engine, Passed(st.tracked, ev)), Observed(st.tracked, ev))
  }

  function TimedRun(st: TimedState, events: seq<Event>): TimedState {
    if events == [] then st else TimedStep(TimedRun(st, events[..|events| - 1]), events[|events| - 1])
  }

  function ObservedAll(m: Timing.Histories, events: seq<Event>): Timing.Histories {
    if events == [] then m else Observed(ObservedAll(m, events[..|events| - 1]), events[|events| - 1])
  }

  /** The run with within-budget timing events deleted and late ones rewritten; computed from
      the events and the timing table alone. */
  function Rewritten(m: Timing.Histories, events: seq<Event>): seq<Event> {
    if events == [] then [] else
      var before := events[..|events| - 1];
      Rewritten(m, before) + Passed(ObservedAll(m, before), events[|events| - 1])
  }

  /** Gating a run is running the plain engine on the rewritten run. */
  lemma {:induction false} GateIsRewriting(st: TimedState, events: seq<Event>)
    ensures TimedRun(st, events)
         == TimedState(ProcessedAll(st.engine, Rewritten(st.tracked, events)), ObservedAll(st.tracked, events))
  {
    hide Passed, Observed;
    if events != [] {
      var before, ev := events[..|events| - 1], events[|events| - 1];
      GateIsRewriting(st, before);
      ProcessedConcat(st.engine, Rewritten(st.tracked, before), Passed(ObservedAll(st.tracked, before), ev));
    }
  }

  /** A round trip within the default budget of 250 ms never reaches the engine. */
  lemma FastNeverPassed(m: Timing.Histories, ev: Event)
    requires Gated(ev) && ev.payload0 <= 250_000
    ensures Passed(m, ev) == []
  {
  }

  /** A run of gated events within 250 ms leaves the store and the alerts as they were. */
  lemma {:induction false} FastRunChangesNothing(st: TimedState, events: seq<Event>)
    requires forall i :: 0 <= i < |events| ==> Gated(events[i]) && events[i].payload0 <= 250_000
    ensures TimedRun(st, events).engine == st.engine
  {
    if events != [] {
      FastRunChangesNothing(st, events[..|events| - 1]);
      FastNeverPassed(TimedRun(st, events[..|events| - 1]).tracked, events[|events| - 1]);
    }
  }

  lemma TripStep(st: TimedState, ev: Event, subject: uint32)
    requires Gated(ev)
    ensures var before, after := Current(st.engine.store, subject), Current(TimedStep(st, ev).engine.store, subject);
            after == before || (before == NOMINAL && after == CHALLENGE)
  {
    ProcessedNone(st.engine);
    ProcessedOne(st.engine, ev.(kind := RATE_LIMIT_TRIP));
    hide ProcessedAll, Late, Observed;
  }

  /** Timing events alone never take a subject past Challenge. */
  lemma {:induction false} TimingStopsAtChallenge(st: TimedState, events: seq<Event>, subject: uint32)
    requires forall i :: 0 <= i < |events| ==> Gated(events[i])
    ensures var before, after := Current(st.engine.store, subject), Current(TimedRun(st, events).engine.store, subject);
            after == before || (before == NOMINAL && after == CHALLENGE)
  {
    if events != [] {
      TimingStopsAtChallenge(st, events[..|events| - 1], subject);
      TripStep(TimedRun(st, events[..|events| - 1]), events[|events| - 1], subject);
      hide TimedStep;
    }
  }

  // ---- The gate, read off the events ----

  /** An event of a tracked subject that carries a round-trip time: an HTTP request, an HTTP/2
      frame or a WebSocket frame. */
  predicate CarriesTime(ev: Event) { ev.subject != 0 && 9 <= ev.kind <= 11 }

  /** All round-trip times of a subject, oldest first. */
  function OwnTimes(events: seq<Event>, subject: nat): TimingModel.Samples {
    if events == [] then [] else
      var before, ev := OwnTimes(events[..|events| - 1], subject), events[|events| - 1];
      if CarriesTime(ev) && ev.subject == subject then before + [ev.payload0] else before
  }

  /** The subjects that have a record, in the order in which they got it: the first 4096. */
  function Admitted(events: seq<Event>): seq<nat> {
    if events == [] then [] else
      var before, ev := Admitted(events[..|events| - 1]), events[|events| - 1];
      if CarriesTime(ev) && ev.subject !in before && |before| < 4096 then before + [ev.subject] else before
  }

  /** What the next event is compared with: the budget of the subject's last 32 times, its own
      included, or 250 ms when there was no room for its record. */
  function Allowance(events: seq<Event>, ev: Event): int {
    if ev.subject in Admitted(events + [ev]) then
      TimingModel.Budget(TimingModel.Window(OwnTimes(events, ev.subject) + [ev.payload0]))
    else 250_000
  }

  /** What reaches the engine when `ev` comes after `events`. */
  function Forwarded(events: seq<Event>, ev: Event): seq<Event> {
    if !CarriesTime(ev) then [ev] else if ev.payload0 <= Allowance(events, ev) then [] else [ev.(kind := 8)]
  }

  function ForwardedAll(events: seq<Event>): seq<Event> {
    if events == [] then [] else
      var before := events[..|events| - 1];
      ForwardedAll(before) + Forwarded(before, events[|events| - 1])
  }

  /** The tracked histories are the times of the subjects that have a record. */
  ghost predicate HistoriesOf(m: Timing.Histories, events: seq<Event>) {
    && Distinct(Admitted(events)) && |Admitted(events)| <= 4096
    && m.Keys == ToSet(Admitted(events)) && |m| == |Admitted(events)|
    && forall s :: s in m ==> m[s] == OwnTimes(events, s)
  }

  lemma AdmittedOneMore(events: seq<Event>, ev: Event)
    ensures var before := Admitted(events);
            Admitted(events + [ev])
            == if CarriesTime(ev) && ev.subject !in before && |before| < 4096 then before + [ev.subject] else before
  {
    assert (events + [ev])[..|events|] == events;
    hide CarriesTime;
  }

  lemma OwnTimesOneMore(events: seq<Event>, ev: Event, subject: nat)
    ensures OwnTimes(events + [ev], subject)
         == if CarriesTime(ev) && ev.subject == subject then OwnTimes(events, subject) + [ev.payload0]
            else OwnTimes(events, subject)
  {
    assert (events + [ev])[..|events|] == events;
    hide CarriesTime;
  }

  /** A subject without a record has no times yet, unless the table is full. */
  lemma {:induction false} NoTimesYet(events: seq<Event>, subject: nat)
    requires subject !in Admitted(events) && |Admitted(events)| < 4096
    ensures OwnTimes(events, subject) == []
  {
    if events != [] {
      NoTimesYet(events[..|events| - 1], subject);
    }
  }

  lemma CarriesTimeIff(ev: Event)
    ensures CarriesTime(ev) <==> Gated(ev)
  {
  }

  lemma ObservedSample(m: Timing.Histories, ev: Event)
    requires Gated(ev) && |m| <= 4096
    ensures var m', fits := Observed(m, ev), ev.subject in m || |m| < 4096;
            m' == if fits then m[ev.subject := (if ev.subject in m then m[ev.subject] else []) + [ev.payload0]] else m
  {
  }

  lemma AdmittedStep(events: seq<Event>, ev: Event)
    requires Distinct(Admitted(events)) && |Admitted(events)| <= 4096
    ensures Distinct(Admitted(events + [ev])) && |Admitted(events + [ev])| <= 4096
    ensures ToSet(Admitted(events + [ev])) ==
            if CarriesTime(ev) && |Admitted(events)| < 4096 then ToSet(Admitted(events)) + {ev.subject} else ToSet(Admitted(events))
  {
    AdmittedOneMore(events, ev);
    hide CarriesTime, Admitted;
  }

  /** The history of each tracked subject after one more event. */
  lemma TimesStep(m: Timing.Histories, events: seq<Event>, ev: Event, s: nat)
    requires HistoriesOf(m, events) && s in Observed(m, ev)
    ensures Observed(m, ev)[s] == OwnTimes(events + [ev], s)
  {
    CarriesTimeIff(ev);
    OwnTimesOneMore(events, ev, s);
    if CarriesTime(ev) {
      ObservedSample(m, ev);
      hide Observed;
      if ev.subject !in Admitted(events) && |Admitted(events)| < 4096 {
        NoTimesYet(events, ev.subject);
      }
      hide CarriesTime, Gated, OwnTimes, Admitted, Distinct;
    }
  }

  lemma KeysStep(m: Timing.Histories, events: seq<Event>, ev: Event)
    requires HistoriesOf(m, events)
    ensures Observed(m, ev).Keys == ToSet(Admitted(events + [ev])) && |Observed(m, ev)| == |Admitted(events + [ev])|
    ensures Distinct(Admitted(events + [ev])) && |Admitted(events + [ev])| <= 4096
  {
    CarriesTimeIff(ev);
    AdmittedStep(events, ev);
    ObservedKeys(m, ev);
    hide CarriesTime, Gated, OwnTimes, Admitted, Distinct, Observed, ToSet;
    SizeOfDistinct(Admitted(events + [ev]));
    assert |Observed(m, ev)| == |Observed(m, ev).Keys|;
  }

  lemma ObservedKeys(m: Timing.Histories, ev: Event)
    requires |m| <= 4096
    ensures Observed(m, ev).Keys == if Gated(ev) && |m| < 4096 then m.Keys + {ev.subject} else m.Keys
  {
    if Gated(ev) {
      ObservedSample(m, ev);
      hide Observed, Gated;
    }
  }

  lemma HistoriesStep(m: Timing.Histories, events: seq<Event>, ev: Event)
    requires HistoriesOf(m, events)
    ensures HistoriesOf(Observed(m, ev), events + [ev])
  {
    hide Observed, OwnTimes, Admitted, Distinct;
    KeysStep(m, events, ev);
    forall s | s in Observed(m, ev) ensures Observed(m, ev)[s] == OwnTimes(events + [ev], s) {
      TimesStep(m, events, ev, s);
    }
  }

  lemma NoHistories()
    ensures HistoriesOf(map[], [])
  {
  }

  lemma {:induction false} RunHistories(events: seq<Event>)
    ensures HistoriesOf(ObservedAll(map[], events), events)
  {
    hide HistoriesOf, Observed;
    if events == [] {
      NoHistories();
    } else {
      var before, ev := events[..|events| - 1], events[|events| - 1];
      RunHistories(before);
      HistoriesStep(ObservedAll(map[], before), before, ev);
      assert before + [ev] == events;
    }
  }

  lemma PassedIsForwarded(m: Timing.Histories, events: seq<Event>, ev: Event)
    requires HistoriesOf(m, events)
    ensures Passed(m, ev) == Forwarded(events, ev)
  {
    CarriesTimeIff(ev);
    HistoriesStep(m, events, ev);
    OwnTimesOneMore(events, ev, ev.subject);
    hide CarriesTime, Gated, Observed, OwnTimes, Admitted, TimingModel.Budget, TimingModel.Window;
  }

  lemma {:induction false} RewrittenIsForwarded(events: seq<Event>)
    ensures Rewritten(map[], events) == ForwardedAll(events)
  {
    hide Passed, Forwarded, HistoriesOf;
    if events != [] {
      var before := events[..|events| - 1];
      RewrittenIsForwarded(before);
      RunHistories(before);
      PassedIsForwarded(ObservedAll(map[], before), before, events[|events| - 1]);
    }
  }

  /** From an empty timing table and any engine state: a gated run is plain processing of the events
      that carry no time, and, as rate-limit trips, of those whose time exceeds the budget of their
      subject's own last 32 times. */
  lemma GateFollowsBudget(st: State, events: seq<Event>)
    ensures TimedRun(TimedState(st, map[]), events).engine == ProcessedAll(st, ForwardedAll(events))
  {
    GateIsRewriting(TimedState(st, map[]), events);
    RewrittenIsForwarded(events);
    hide TimedRun, Rewritten, ForwardedAll, ProcessedAll;
  }

  /** One more event, after any run. */
  lemma GateStep(st: State, events: seq<Event>, ev: Event)
    ensures var before := TimedRun(TimedState(st, map[]), events).engine;
            TimedRun(TimedState(st, map[]), events + [ev]).engine
            == if !CarriesTime(ev) then Processed(before, ev)
               else if ev.payload0 <= Allowance(events, ev) then before
               else Processed(before, ev.(kind := 8))
  {
    var before := TimedRun(TimedState(st, map[]), events).engine;
    assert (events + [ev])[..|events|] == events;
    assert ForwardedAll(events + [ev]) == ForwardedAll(events) + Forwarded(events, ev);
    GateFollowsBudget(st, events);
    GateFollowsBudget(st, events + [ev]);
    hide TimedRun, ForwardedAll, Processed, CarriesTime, Allowance;
    ProcessedConcat(st, ForwardedAll(events), Forwarded(events, ev));
    ProcessedNone(before);
    ProcessedOne(before, ev);
    ProcessedOne(before, ev.(kind := 8));
    hide ProcessedAll;
  }

  // ---- What a run can record ----

  /** Every sample is a 32-bit payload. */
  ghost predicate AllPayloads(m: Timing.Histories) {
    forall s :: s in m ==> PayloadsOnly(m[s])
  }

  ghost predicate PayloadsOnly(h: TimingModel.Samples) {
    forall i :: 0 <= i < |h| ==> 0 <= h[i] <= TimingBounds.MAX_PAYLOAD
  }

  lemma ObservedPayloads(m: Timing.Histories, ev: Event)
    requires AllPayloads(m)
    ensures AllPayloads(Observed(m, ev))
  {
    forall h | PayloadsOnly(h) ensures PayloadsOnly(h + [ev.payload0]) {
    }
    hide PayloadsOnly;
    assert PayloadsOnly([]) by { NoPayloads(); }
  }

  lemma NoPayloads()
    ensures PayloadsOnly([])
  {
  }

  lemma {:induction false} RunPayloads(events: seq<Event>)
    ensures AllPayloads(ObservedAll(map[], events))
  {
    hide Observed;
    if events != [] {
      RunPayloads(events[..|events| - 1]);
      ObservedPayloads(ObservedAll(map[], events[..|events| - 1]), events[|events| - 1]);
    }
  }

  /** After any run, the score of every tracked subject is at most 96, and at most 24 when its
      deviation is at least 1 and its sum of squares is below 2^64. */
  lemma ScoreAfterRun(events: seq<Event>, subject: uint32)
    requires subject in ObservedAll(map[], events)
    ensures var w := TimingModel.Window(ObservedAll(map[], events)[subject]);
            && TimingModel.Score(w) <= 96
            && (w != [] && TimingModel.Deviation(w) >= 1 && TimingModel.Squares(w, TimingModel.Mean(w)) < 2 * HALF ==>
                  TimingModel.Score(w) <= 24)
  {
    RunPayloads(events);
    hide ObservedAll, TimingModel.Score, TimingModel.Deviation, TimingModel.Squares, TimingModel.Mean;
    TimingBounds.ScoreBounds(TimingModel.Window(ObservedAll(map[], events)[subject]));
  }

  /** When is the first timing event of a subject late? Exactly when it exceeds 250 ms, whether
      or not the table has room: there is no grace for a warm-up or for a full table. */
  lemma FirstSampleLateIff(m: Timing.Histories, ev: Event)
    requires Gated(ev) && ev.subject !in m
    ensures Late(m, ev) <==> ev.payload0 > 250_000
    ensures |m| >= Timing.TABLE_SIZE ==> Observed(m, ev) == m
  {
  }

  /** A nominal subject is moved to Challenge by one late first sample. */
  lemma OneLateSampleChallenges(st: TimedState, ev: Event)
    requires Gated(ev) && ev.subject !in st.tracked && ev.payload0 > 250_000
    requires Current(st.engine.store, ev.subject) == NOMINAL
    ensures Current(TimedStep(st, ev).engine.store, ev.subject) == CHALLENGE
  {
    FirstSampleLateIff(st.tracked, ev);
    var trip := ev.(kind := RATE_LIMIT_TRIP);
    ProcessedOne(st.engine, trip);
  }
}

module TimedEngine {
  import opened EngineModel
  import opened TimedModel
  import Engine
  import Timing

  /** `table` is null when no timing policy is configured. */
  method TimedProcess(engine: Engine.Engine, table: Timing.Table?, ev: Event, nowNS: nat)
    returns (status: byte, changed: bool, absorbed: bool)
    requires engine.Valid() && (table != null ==> table.Valid())
    modifies engine
    modifies if table == null then {} else {table, table.keys, table.used}
    modifies if table == null then {} else set r | r in table.tbl
    modifies if table == null then {} else set i | 0 <= i < |table.tbl| :: table.tbl[i].samples
    ensures engine.Valid() && (table != null ==> table.Valid())
    ensures table == null ==> engine.Abstract() == Processed(old(engine.Abstract()), ev) && !absorbed
    ensures table != null ==>
      && TimedState(engine.Abstract(), table.Tracked) == TimedStep(old(TimedState(engine.Abstract(), table.Tracked)), ev)
      && (absorbed <==> old(Passed(table.Tracked, ev)) == [])
    ensures absorbed ==> status == NOMINAL && !changed
    ensures !absorbed ==> status == if ev.subject == 0 then NOMINAL else Current(engine.store, ev.subject)
    ensures changed <==> engine.Abstract() != old(engine.Abstract())
  {
    hide Processed, Current, Timing.Recorded, Timing.Touched, Timing.BudgetOf;
    hide Engine.Engine.Valid, Timing.Table.Valid;
    if table == null {
      status, changed := engine.Process(ev);
      return status, changed, false;
    }
    var event := ev;
    if ev.subject != 0 && IsTimingEvent(ev.kind) {
      var recorded := table.Record(ev.subject, ev.payload0, nowNS);
      var budget := table.BudgetFor(ev.subject);
      if ev.payload0 <= budget {
        return NOMINAL, false, true;
      }
      event := event.(kind := RATE_LIMIT_TRIP);
    }
    status, changed := engine.Process(event);
    ProcessedOne(old(engine.Abstract()), event);
    absorbed := false;
  }
}
