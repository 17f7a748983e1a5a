/**
 Execution of signed commands on the agent (agent/internal/response/response.go): concurrent
 handlers, each taking the lock for one step at a time, over a set of running commands and a
 bounded memory of applied ones.
 */
module CommandModel {
  import opened Counting
  import opened Wrappers

  const MAX_APPLIED_COMMAND_IDS := 10_000

  type Memory = map<ID, int>

  /** Where a handler stands with the command it has reserved. */
  datatype Pc =
    | Running(id: ID)
    | Finished(id: ID, ok: bool)
    | Remembered(id: ID)

  /** The handler state, the active handlers, and two histories: the latest timestamp, and the
      commands that were applied, in the order in which they were remembered. */
  datatype Agent = Agent(appliedAt: Memory, inFlight: set<ID>, procs: map<nat, Pc>, clock: int, successes: seq<ID>)

  const START := Agent(map[], {}, map[], 0, [])

  datatype Step =
    | Reserve(p: nat, id: ID)
    | Finish(p: nat, ok: bool)
    | Remember(p: nat, now: int, victim: Option<ID>)
    | Release(p: nat)

  ghost predicate IsOldest(m: Memory, id: ID) {
    id in m && forall other :: other in m ==> m[id] <= m[other]
  }

  /** A full memory forgets one of its oldest entries. */
  ghost predicate Evicts(m: Memory, victim: Option<ID>) {
    if |m| >= MAX_APPLIED_COMMAND_IDS then victim.Some? && IsOldest(m, victim.value) else victim == None
  }

  function WithEntry(m: Memory, id: ID, now: int, victim: Option<ID>): Memory {
    (if victim.Some? then m - {victim.value} else m)[id := now]
  }

  predicate Duplicate(a: Agent, id: ID) { id in a.appliedAt || id in a.inFlight }

  ghost predicate Enabled(a: Agent, s: Step) {
    match s
    case Reserve(p, id) => p !in a.procs && id != ""
    case Finish(p, _) => p in a.procs && a.procs[p].Running?
    case Remember(p, now, victim) =>
      p in a.procs && a.procs[p].Finished? && a.procs[p].ok && a.clock < now && Evicts(a.appliedAt, victim)
    case Release(p) => p in a.procs && (a.procs[p].Remembered? || (a.procs[p].Finished? && !a.procs[p].ok))
  }

  function Do(a: Agent, s: Step): Agent {
    match s
    case Reserve(p, id) =>
      if Duplicate(a, id) then a else a.(inFlight := a.inFlight + {id}, procs := a.procs[p := Running(id)])
    case Finish(p, ok) =>
      if p in a.procs then a.(procs := a.procs[p := Finished(a.procs[p].id, ok)]) else a
    case Remember(p, now, victim) =>
      if p !in a.procs then a else
        var id := a.procs[p].id;
        a.(appliedAt := WithEntry(a.appliedAt, id, now, victim), procs := a.procs[p := Remembered(id)],
           clock := now, successes := a.successes + [id])
    case Release(p) =>
      if p in a.procs then a.(inFlight := a.inFlight - {a.procs[p].id}, procs := a.procs - {p}) else a
  }

  datatype Ack = Ack(id: ID, applied: bool)

  /** The answer sent back by a step, if it ends a call. */
  function Answer(a: Agent, s: Step): Option<Ack> {
    match s
    case Reserve(_, id) => if Duplicate(a, id) then Some(Ack(id, true)) else None
    case Release(p) => if p in a.procs then Some(Ack(a.procs[p].id, a.procs[p].Remembered?)) else None
    case _ => None
  }

  // ---- The invariant ----

  /** The most recent applied commands, as many as the memory holds. */
  function Window(successes: seq<ID>): seq<ID> {
    if |successes| <= MAX_APPLIED_COMMAND_IDS then successes
    else successes[|successes| - MAX_APPLIED_COMMAND_IDS..]
  }

  /** The memory is exactly the window of recent successes, in the order of its timestamps. */
  ghost predicate MemoryIsWindow(m: Memory, w: seq<ID>, clock: int) {
    && Distinct(w)
    && m.Keys == ToSet(w)
    && (forall i :: 0 <= i < |w| ==> m[w[i]] <= clock)
    && (forall i, j :: 0 <= i < j < |w| ==> m[w[i]] < m[w[j]])
  }

  /** Equal entries are more than the memory size apart. */
  ghost predicate Spaced(successes: seq<ID>) {
    forall i, j :: 0 <= i < j < |successes| && successes[i] == successes[j] ==> j - i > MAX_APPLIED_COMMAND_IDS
  }

  /** A handler that has remembered its command did so in the history. */
  ghost predicate RememberedSucceeded(a: Agent) {
    forall p :: p in a.procs && a.procs[p].Remembered? ==> a.procs[p].id in a.successes
  }

  /** The reservations are those of the active handlers, no two of which have the same command;
      a command that is not remembered yet is not in the memory. */
  ghost predicate Exclusive(a: Agent) {
    && (forall p :: p in a.procs ==> a.procs[p].id in a.inFlight && a.procs[p].id != "")
    && (forall id :: id in a.inFlight ==> exists p :: p in a.procs && a.procs[p].id == id)
    && (forall p, q :: p in a.procs && q in a.procs && p != q ==> a.procs[p].id != a.procs[q].id)
    && (forall p :: p in a.procs && !a.procs[p].Remembered? ==> a.procs[p].id !in a.appliedAt)
  }

  ghost predicate Inv(a: Agent) {
    && Exclusive(a)
    && MemoryIsWindow(a.appliedAt, Window(a.successes), a.clock)
    && Spaced(a.successes)
    && RememberedSucceeded(a)
  }

  lemma MemoryGrowsByOne(m: Memory, id: ID, now: int, victim: Option<ID>)
    ensures forall other :: other in WithEntry(m, id, now, victim) ==> other in m || other == id
  {
  }

  lemma WindowGrows(successes: seq<ID>, id: ID)
    ensures var w, w', full := Window(successes), Window(successes + [id]), |successes| >= MAX_APPLIED_COMMAND_IDS;
            && (|w| >= MAX_APPLIED_COMMAND_IDS <==> full)
            && w' == (if full then w[1..] + [id] else w + [id])
  {
  }

  lemma MemorySize(m: Memory, w: seq<ID>, clock: int)
    requires MemoryIsWindow(m, w, clock)
    ensures |m| == |w|
  {
    SizeOfDistinct(w);
    assert |m| == |m.Keys|;
  }

  lemma RememberWindow(m: Memory, successes: seq<ID>, clock: int, id: ID, now: int, victim: Option<ID>)
    requires MemoryIsWindow(m, Window(successes), clock) && clock < now && id !in m && Evicts(m, victim)
    ensures MemoryIsWindow(WithEntry(m, id, now, victim), Window(successes + [id]), now)
    ensures forall other :: other in WithEntry(m, id, now, victim) ==> other in m || other == id
  {
    hide Window, MemoryIsWindow, IsOldest;
    var w := Window(successes);
    WindowGrows(successes, id);
    MemorySize(m, w, clock);
    MemoryGrowsByOne(m, id, now, victim);
    if |m| >= MAX_APPLIED_COMMAND_IDS {
      OldestIsFirst(m, w, clock, victim.value);
      DropFirst(m, w, clock);
      AddLast(m - {w[0]}, w[1..], clock, id, now);
    } else {
      AddLast(m, w, clock, id, now);
    }
  }

  lemma OldestIsFirst(m: Memory, w: seq<ID>, clock: int, id: ID)
    requires MemoryIsWindow(m, w, clock) && IsOldest(m, id)
    ensures w != [] && id == w[0]
  {
    assert id in ToSet(w);
    var i :| 0 <= i < |w| && w[i] == id;
    assert w[0] in ToSet(w);
  }

  lemma DropFirst(m: Memory, w: seq<ID>, clock: int)
    requires MemoryIsWindow(m, w, clock) && w != []
    ensures MemoryIsWindow(m - {w[0]}, w[1..], clock)
  {
    forall x ensures x in ToSet(w[1..]) <==> x in m && x != w[0] {
      if x in m && x != w[0] {
        assert x in ToSet(w);
        var i :| 0 <= i < |w| && w[i] == x;
        assert w[1..][i - 1] == x;
      }
    }
  }

  lemma AddLast(m: Memory, w: seq<ID>, clock: int, id: ID, now: int)
    requires MemoryIsWindow(m, w, clock) && id !in m && clock < now
    ensures MemoryIsWindow(m[id := now], w + [id], now)
  {
    forall i | 0 <= i < |w| ensures w[i] in m && w[i] != id {
      assert w[i] in ToSet(w);
    }
  }

  lemma InWindow(successes: seq<ID>, i: nat)
    requires i < |successes|
    ensures |successes| - i <= MAX_APPLIED_COMMAND_IDS ==> successes[i] in Window(successes)
  {
    var n := |successes|;
    if n > MAX_APPLIED_COMMAND_IDS && n - i <= MAX_APPLIED_COMMAND_IDS {
      assert Window(successes)[i - (n - MAX_APPLIED_COMMAND_IDS)] == successes[i];
    }
  }

  lemma RememberSpaced(successes: seq<ID>, id: ID)
    requires Spaced(successes) && id !in Window(successes)
    ensures Spaced(successes + [id])
  {
    forall i | 0 <= i < |successes| && successes[i] == id ensures |successes| - i > MAX_APPLIED_COMMAND_IDS {
      InWindow(successes, i);
    }
  }

  lemma ReserveKeepsExclusive(a: Agent, p: nat, id: ID)
    requires Exclusive(a) && p !in a.procs && id != ""
    ensures Exclusive(Do(a, Reserve(p, id)))
  {
    var a' := Do(a, Reserve(p, id));
    if !Duplicate(a, id) {
      assert a'.procs[p].id == id;
      forall other | other in a.inFlight ensures exists q :: q in a'.procs && a'.procs[q].id == other {
        var q :| q in a.procs && a.procs[q].id == other;
        assert q in a'.procs && a'.procs[q].id == other;
      }
    }
  }

  lemma ReleaseKeepsExclusive(a: Agent, p: nat)
    requires Exclusive(a) && p in a.procs
    ensures Exclusive(Do(a, Release(p)))
  {
    var a' := Do(a, Release(p));
    forall other | other in a'.inFlight ensures exists q :: q in a'.procs && a'.procs[q].id == other {
      var q :| q in a.procs && a.procs[q].id == other;
      assert q in a'.procs;
    }
  }

  lemma FinishKeepsExclusive(a: Agent, p: nat, ok: bool)
    requires Exclusive(a) && p in a.procs && a.procs[p].Running?
    ensures Exclusive(Do(a, Finish(p, ok)))
  {
    SameIDs(a, Do(a, Finish(p, ok)));
  }

  lemma RememberKeepsExclusive(a: Agent, p: nat, now: int, victim: Option<ID>)
    requires Exclusive(a) && p in a.procs
    ensures Exclusive(Do(a, Remember(p, now, victim)))
  {
    SameIDs(a, Do(a, Remember(p, now, victim)));
    MemoryGrowsByOne(a.appliedAt, a.procs[p].id, now, victim);
    hide WithEntry;
  }

  lemma StepKeepsExclusive(a: Agent, s: Step)
    requires Exclusive(a) && Enabled(a, s)
    ensures Exclusive(Do(a, s))
  {
    hide Exclusive, Do;
    match s
    case Reserve(p, id) => ReserveKeepsExclusive(a, p, id);
    case Finish(p, ok) => FinishKeepsExclusive(a, p, ok);
    case Remember(p, now, victim) => RememberKeepsExclusive(a, p, now, victim);
    case Release(p) => ReleaseKeepsExclusive(a, p);
  }

  lemma SameIDs(a: Agent, a': Agent)
    requires Exclusive(a) && a'.inFlight == a.inFlight && a'.procs.Keys == a.procs.Keys
    requires forall p :: p in a.procs ==> a'.procs[p].id == a.procs[p].id
    ensures forall id :: id in a'.inFlight ==> exists p :: p in a'.procs && a'.procs[p].id == id
  {
    forall id | id in a'.inFlight ensures exists p :: p in a'.procs && a'.procs[p].id == id {
      var p :| p in a.procs && a.procs[p].id == id;
      assert p in a'.procs && a'.procs[p].id == id;
    }
  }

  lemma StepKeepsInv(a: Agent, s: Step)
    requires Inv(a) && Enabled(a, s)
    ensures Inv(Do(a, s))
  {
    StepKeepsExclusive(a, s);
    if s.Remember? {
      var id := a.procs[s.p].id;
      assert id !in a.appliedAt;
      hide Exclusive;
      RememberWindow(a.appliedAt, a.successes, a.clock, id, s.now, s.victim);
      assert id !in ToSet(Window(a.successes));
      hide MemoryIsWindow;
      RememberSpaced(a.successes, id);
    }
  }

  lemma {:induction false} OldestOf(m: Memory, ids: set<ID>) returns (id: ID)
    requires ids != {} && ids <= m.Keys
    ensures id in ids && forall other :: other in ids ==> m[id] <= m[other]
    decreases ids
  {
    id :| id in ids;
    if ids != {id} {
      var best := OldestOf(m, ids - {id});
      id := if m[best] < m[id] then best else id;
    }
  }

  /** There is always something to evict when something must be evicted. */
  lemma VictimExists(m: Memory) returns (victim: Option<ID>)
    ensures Evicts(m, victim)
  {
    victim := None;
    if |m| >= MAX_APPLIED_COMMAND_IDS {
      assert m.Keys != {};
      var id := OldestOf(m, m.Keys);
      victim := Some(id);
    }
  }

  // ---- Runs ----

  ghost predicate Legal(a: Agent, run: seq<Step>)
    decreases |run|
  {
    run == [] || (Enabled(a, run[0]) && Legal(Do(a, run[0]), run[1..]))
  }

  function DoAll(a: Agent, run: seq<Step>): Agent
    decreases |run|
  {
    if run == [] then a else DoAll(Do(a, run[0]), run[1..])
  }

  lemma {:induction false} RunKeepsInv(a: Agent, run: seq<Step>)
    requires Inv(a) && Legal(a, run)
    ensures Inv(DoAll(a, run))
    decreases |run|
  {
    hide Inv, Enabled, Do;
    if run != [] {
      StepKeepsInv(a, run[0]);
      RunKeepsInv(Do(a, run[0]), run[1..]);
    }
  }

  /** In every interleaving: no two handlers ever execute the same command at once, the memory
      stays within its cap, and no reservation outlives its handler. */
  lemma NeverOverlaps(run: seq<Step>)
    requires Legal(START, run)
    ensures var a := DoAll(START, run);
            && (forall p, q :: p in a.procs && q in a.procs && p != q ==> a.procs[p].id != a.procs[q].id)
            && |a.appliedAt| <= 10_000
            && (a.procs == map[] ==> a.inFlight == {})
  {
    RunKeepsInv(START, run);
    var a := DoAll(START, run);
    SizeOfDistinct(Window(a.successes));
    assert |a.appliedAt| == |a.appliedAt.Keys|;
  }

  /** In every interleaving: after a command succeeded, at least 10000 commands succeed before it
      succeeds again, and the next 10000 are pairwise different and different from it. */
  lemma SuccessesFarApart(run: seq<Step>, i: nat, j: nat)
    requires Legal(START, run)
    requires var log := DoAll(START, run).successes; i < j < |log| && log[i] == log[j]
    ensures var log := DoAll(START, run).successes;
            && i + 10_000 < j
            && Distinct(log[i..i + 10_001])
  {
    RunKeepsInv(START, run);
  }

  /** And it does not even start again before: a command that is executed anew is not among the
      last 10000 successes. */
  lemma StartsOnlyWhenForgotten(run: seq<Step>, p: nat, id: ID)
    requires Legal(START, run) && Enabled(DoAll(START, run), Reserve(p, id)) && !Duplicate(DoAll(START, run), id)
    ensures id !in Window(DoAll(START, run).successes)
  {
    RunKeepsInv(START, run);
    var a := DoAll(START, run);
    assert id in Window(a.successes) ==> id in ToSet(Window(a.successes));
  }

  // ---- When an "applied" answer can be believed ----

  lemma InMemorySucceeded(a: Agent, id: ID)
    requires Inv(a) && id in a.appliedAt
    ensures id in a.successes
  {
    assert id in ToSet(Window(a.successes));
  }

  /** With one handler at a time, as the agent's single command reader has it, every command
      that is answered "applied" did succeed. */
  lemma SerialAnswerTrue(run: seq<Step>, s: Step)
    requires Legal(START, run) && Enabled(DoAll(START, run), s)
    requires s.Reserve? ==> DoAll(START, run).procs == map[]
    ensures var a := DoAll(START, run);
            Answer(a, s).Some? && Answer(a, s).value.applied ==> Answer(a, s).value.id in a.successes
  {
    RunKeepsInv(START, run);
    var a := DoAll(START, run);
    if s.Reserve? && Duplicate(a, s.id) {
      InMemorySucceeded(a, s.id);
    }
  }

  /** What survives a restart: the memory may have lost entries, but invents none. */
  ghost predicate Sound(a: Agent) {
    Exclusive(a) && RememberedSucceeded(a) && forall id :: id in a.appliedAt ==> id in a.successes
  }

  lemma InvIsSound(a: Agent)
    requires Inv(a)
    ensures Sound(a)
  {
    forall id | id in a.appliedAt ensures id in a.successes {
      InMemorySucceeded(a, id);
    }
  }

  lemma StepKeepsSound(a: Agent, s: Step)
    requires Sound(a) && Enabled(a, s)
    ensures Sound(Do(a, s))
  {
    StepKeepsExclusive(a, s);
    hide Exclusive;
    if s.Remember? {
      MemoryGrowsByOne(a.appliedAt, a.procs[s.p].id, s.now, s.victim);
      hide WithEntry, Evicts;
    }
  }

  /** The agent's process starts anew: memory, reservations and handlers are gone. */
  function Restarted(a: Agent): Agent { a.(appliedAt := map[], inFlight := {}, procs := map[]) }

  lemma RestartIsSound(a: Agent)
    ensures Sound(Restarted(a))
  {
  }

  lemma DuplicateIffRunning(a: Agent, id: ID)
    requires Sound(a) && id !in a.successes
    ensures Duplicate(a, id) <==> exists p :: p in a.procs && a.procs[p].id == id
  {
  }

  /** Whatever the agent may answer next, "applied" is said only of commands that succeeded. */
  ghost predicate AnswersTrue(a: Agent) {
    forall s :: Enabled(a, s) && Answer(a, s).Some? && Answer(a, s).value.applied ==> Answer(a, s).value.id in a.successes
  }

  lemma AnswerTrue(a: Agent, s: Step)
    requires Inv(a) && Enabled(a, s) && Answer(a, s).Some? && Answer(a, s).value.applied
    requires forall p :: p in a.procs ==> a.procs[p].id in a.successes
    ensures Answer(a, s).value.id in a.successes
  {
    InvIsSound(a);
    if s.Reserve? && s.id !in a.successes {
      DuplicateIffRunning(a, s.id);
    }
  }

  /** In every state that any interleaving reaches, all "applied" answers that can come next are
      true if and only if the command of every active handler has succeeded already. */
  lemma AppliedAnswersTrueIff(run: seq<Step>)
    requires Legal(START, run)
    ensures var a := DoAll(START, run);
            AnswersTrue(a) <==> forall p :: p in a.procs ==> a.procs[p].id in a.successes
  {
    RunKeepsInv(START, run);
    var a := DoAll(START, run);
    if forall p :: p in a.procs ==> a.procs[p].id in a.successes {
      forall s | Enabled(a, s) && Answer(a, s).Some? && Answer(a, s).value.applied
        ensures Answer(a, s).value.id in a.successes
      {
        AnswerTrue(a, s);
      }
    } else {
      var p :| p in a.procs && a.procs[p].id !in a.successes;
      var q := FreshNat(a.procs.Keys);
      assert Enabled(a, Reserve(q, a.procs[p].id));
      assert Answer(a, Reserve(q, a.procs[p].id)) == Some(Ack(a.procs[p].id, true));
    }
  }

  lemma DuplicateStep(a: Agent, q: nat, id: ID)
    requires q !in a.procs && id != "" && Duplicate(a, id)
    ensures Enabled(a, Reserve(q, id)) && Do(a, Reserve(q, id)) == a && Answer(a, Reserve(q, id)) == Some(Ack(id, true))
  {
  }

  lemma FailingSteps(a: Agent, p: nat)
    requires p in a.procs && a.procs[p].Running?
    ensures var a' := Do(a, Finish(p, false));
            && Enabled(a, Finish(p, false)) && Enabled(a', Release(p))
            && Answer(a', Release(p)) == Some(Ack(a.procs[p].id, false))
            && Do(a', Release(p)).successes == a.successes
  {
  }

  /** And such an answer can turn out to be false: in every state in which a command is running
      that never succeeded, a second handler can be told "applied", and the first then fail. */
  lemma DuplicateOfRunningCanLie(a: Agent, p: nat, q: nat)
    requires Inv(a) && p in a.procs && a.procs[p].Running? && q !in a.procs && a.procs[p].id !in a.successes
    ensures var id := a.procs[p].id;
            var run := [Reserve(q, id), Finish(p, false), Release(p)];
            && Legal(a, run)
            && Answer(a, run[0]) == Some(Ack(id, true))
            && Answer(DoAll(a, run[..2]), run[2]) == Some(Ack(id, false))
            && DoAll(a, run).successes == a.successes
  {
    var s0, s1, s2 := Reserve(q, a.procs[p].id), Finish(p, false), Release(p);
    assert DoAll(Do(Do(a, s1), s2), []) == Do(Do(a, s1), s2) && Legal(Do(Do(a, s1), s2), []);
    assert DoAll(Do(a, s1), []) == Do(a, s1);
    assert a.procs[p].id in a.inFlight && a.procs[p].id != "";
    DuplicateStep(a, q, a.procs[p].id);
    FailingSteps(a, p);
    hide *;
    LegalStep(a, s0, [s1, s2]);
    LegalStep(a, s1, [s2]);
    LegalStep(Do(a, s1), s2, []);
    LegalStep(a, s0, [s1]);
    LegalStep(a, s1, []);
    assert [s0] + [s1, s2] == [s0, s1, s2] && [s0, s1, s2][..2] == [s0] + [s1];
    assert [s1] + [s2] == [s1, s2] && [s2] + [] == [s2] && [s1] + [] == [s1];
  }

  /** One of those states is reached by a single reservation. */
  lemma ConcurrentDuplicateCanLie()
    ensures var run := [Reserve(0, "x"), Reserve(1, "x"), Finish(0, false), Release(0)];
            && Legal(START, run)
            && Answer(Do(START, run[0]), run[1]) == Some(Ack("x", true))
            && DoAll(START, run).successes == []
  {
    var s, rest := Reserve(0, "x"), [Reserve(1, "x"), Finish(0, false), Release(0)];
    LegalStep(START, s, []);
    RunKeepsInv(START, [s]);
    DuplicateOfRunningCanLie(Do(START, s), 0, 1);
    LegalStep(START, s, rest);
  }

  lemma LegalStep(a: Agent, s: Step, rest: seq<Step>)
    ensures Legal(a, [s] + rest) <==> Enabled(a, s) && Legal(Do(a, s), rest)
    ensures DoAll(a, [s] + rest) == DoAll(Do(a, s), rest)
  {
    assert ([s] + rest)[1..] == rest;
  }
}
