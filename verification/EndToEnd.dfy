/**
 Server and agent together: rows in the database, frames and answers on their way, and the
 agent. Any step may happen at any time, so a tick can stop between its send and its mark, an
 answer can overtake the mark, a frame or an answer can be lost with its connection, and the
 agent can restart.
 */
module EndToEnd {
  import opened ActionModel
  import opened Counting
  import opened Wrappers
  import D = DispatchModel
  import C = CommandModel

  datatype System = System(rows: Rows, frames: multiset<ID>, answers: multiset<C.Ack>, agent: C.Agent)

  const START := System(map[], multiset{}, multiset{}, C.START)

  datatype Event =
    | Write(id: ID)
    | Send(id: ID)
    | Mark(id: ID)
    | OnAgent(step: C.Step)
    | Reject(id: ID)
    | Receive(answer: C.Ack)
    | LoseFrame(id: ID)
    | LoseAnswer(answer: C.Ack)
    | Restart

  ghost predicate Possible(s: System, e: Event) {
    match e
    case Write(id) => id !in s.rows
    case Send(id) => id in s.rows && s.rows[id] == Pending
    case Mark(id) => true
    case OnAgent(step) => C.Enabled(s.agent, step) && (step.Reserve? ==> step.id in s.frames)
    case Reject(id) => id in s.frames
    case Receive(answer) => answer in s.answers
    case LoseFrame(id) => id in s.frames
    case LoseAnswer(answer) => answer in s.answers
    case Restart => true
  }

  /** `Reject` is a command that fails one of the agent's checks before it is reserved. */
  function After(s: System, e: Event): System {
    match e
    case Write(id) => s.(rows := s.rows[id := Pending])
    case Send(id) => s.(frames := s.frames + multiset{id})
    case Mark(id) => s.(rows := CompareAndSet(s.rows, id, Pending, Dispatched))
    case OnAgent(step) =>
      s.(agent := C.Do(s.agent, step),
         frames := if step.Reserve? then s.frames - multiset{step.id} else s.frames,
         answers := match C.Answer(s.agent, step)
                    case None => s.answers
                    case Some(answer) => s.answers + multiset{answer})
    case Reject(id) => s.(frames := s.frames - multiset{id}, answers := s.answers + multiset{C.Ack(id, false)})
    case Receive(answer) =>
      s.(answers := s.answers - multiset{answer},
         rows := CompareAndSet(s.rows, answer.id, Dispatched, if answer.applied then Applied else Failed))
    case LoseFrame(id) => s.(frames := s.frames - multiset{id})
    case LoseAnswer(answer) => s.(answers := s.answers - multiset{answer})
    case Restart => s.(agent := C.Restarted(s.agent))
  }

  function AfterAll(s: System, run: seq<Event>): System {
    if run == [] then s else After(AfterAll(s, run[..|run| - 1]), run[|run| - 1])
  }

  ghost predicate Legal(s: System, run: seq<Event>) {
    run == [] || (Legal(s, run[..|run| - 1]) && Possible(AfterAll(s, run[..|run| - 1]), run[|run| - 1]))
  }

  // ---- Rows only move forward ----

  lemma RowStep(s: System, e: Event, id: ID)
    requires Possible(s, e) && id in s.rows
    ensures id in After(s, e).rows && Precedes(s.rows[id], After(s, e).rows[id])
  {
    hide C.Do, C.Answer, C.Enabled;
  }

  /** In every run a row moves along pending, dispatched, and then applied or failed, never back
      and never between the two final states. */
  lemma {:induction false} RowsMoveForward(s: System, run: seq<Event>, id: ID)
    requires Legal(s, run) && id in s.rows
    ensures id in AfterAll(s, run).rows && Precedes(s.rows[id], AfterAll(s, run).rows[id])
  {
    hide After, Possible;
    if run != [] {
      RowsMoveForward(s, run[..|run| - 1], id);
      RowStep(AfterAll(s, run[..|run| - 1]), run[|run| - 1], id);
    }
  }

  // ---- A tick is a run of sends and marks ----

  /** Sends and marks, one after the other. */
  function SendAndMark(ids: seq<ID>): seq<Event> {
    if ids == [] then [] else SendAndMark(ids[..|ids| - 1]) + [Send(ids[|ids| - 1]), Mark(ids[|ids| - 1])]
  }

  lemma LegalThen(s: System, run: seq<Event>, e: Event)
    ensures Legal(s, run + [e]) <==> Legal(s, run) && Possible(AfterAll(s, run), e)
    ensures AfterAll(s, run + [e]) == After(AfterAll(s, run), e)
  {
    assert (run + [e])[..|run|] == run;
    hide Possible, After;
  }

  ghost predicate AllPending(rows: Rows, ids: seq<ID>) {
    Distinct(ids) && forall id :: id in ids ==> id in rows && rows[id] == Pending
  }

  lemma AllPendingInit(rows: Rows, ids: seq<ID>)
    requires AllPending(rows, ids) && ids != []
    ensures var init, id := ids[..|ids| - 1], ids[|ids| - 1];
            ids == init + [id] && AllPending(rows, init) && id in rows && rows[id] == Pending && id !in init
  {
  }

  /** The state after frames for `sent` went out and the rows of `marked` were marked. */
  function Ticked(s: System, sent: seq<ID>, marked: seq<ID>): System {
    s.(rows := D.Marked(s.rows, marked), frames := s.frames + multiset(sent))
  }

  lemma SendStep(s: System, ids: seq<ID>, id: ID)
    requires id in s.rows && s.rows[id] == Pending && id !in ids
    ensures Possible(Ticked(s, ids, ids), Send(id))
    ensures After(Ticked(s, ids, ids), Send(id)) == Ticked(s, ids + [id], ids)
  {
    assert multiset(ids + [id]) == multiset(ids) + multiset{id};
  }

  lemma MarkStep(s: System, ids: seq<ID>, id: ID)
    ensures Possible(Ticked(s, ids + [id], ids), Mark(id))
    ensures After(Ticked(s, ids + [id], ids), Mark(id)) == Ticked(s, ids + [id], ids + [id])
  {
    D.MarkStep(s.rows, ids, id);
    hide D.Marked;
  }

  lemma NothingTicked(s: System)
    ensures Ticked(s, [], []) == s
  {
    D.NothingMarked(s.rows);
  }

  lemma {:induction false} SendAndMarkRun(s: System, ids: seq<ID>)
    requires AllPending(s.rows, ids)
    ensures Legal(s, SendAndMark(ids)) && AfterAll(s, SendAndMark(ids)) == Ticked(s, ids, ids)
  {
    if ids == [] {
      NothingTicked(s);
    } else {
      var init, id := ids[..|ids| - 1], ids[|ids| - 1];
      AllPendingInit(s.rows, ids);
      SendAndMarkRun(s, init);
      var run := SendAndMark(init);
      assert SendAndMark(ids) == (run + [Send(id)]) + [Mark(id)];
      hide *;
      SendStep(s, init, id);
      LegalThen(s, run, Send(id));
      MarkStep(s, init, id);
      LegalThen(s, run + [Send(id)], Mark(id));
    }
  }

  lemma SentLast(s: System, marked: seq<ID>, id: ID)
    requires AllPending(s.rows, marked) && id in s.rows && s.rows[id] == Pending && id !in marked
    ensures Legal(s, SendAndMark(marked) + [Send(id)])
    ensures AfterAll(s, SendAndMark(marked) + [Send(id)]) == Ticked(s, marked + [id], marked)
  {
    hide *;
    SendAndMarkRun(s, marked);
    SendStep(s, marked, id);
    LegalThen(s, SendAndMark(marked), Send(id));
  }

  /** The tick's snapshot: pending rows, each listed once. */
  ghost predicate Snapshot(rows: Rows, jobs: seq<D.Job>) {
    && (forall i, j :: 0 <= i < j < |jobs| ==> jobs[i].action != jobs[j].action)
    && (forall i :: 0 <= i < |jobs| ==> jobs[i].action in rows && rows[jobs[i].action] == Pending)
  }

  lemma {:induction false} FramesPending(rows: Rows, jobs: seq<D.Job>, conns: set<string>, n: nat)
    requires n <= |jobs| && Snapshot(rows, jobs)
    ensures forall id :: id in D.Frames(jobs[..n], conns) ==> exists i :: 0 <= i < n && jobs[i].action == id
    ensures AllPending(rows, D.Frames(jobs[..n], conns))
  {
    if n > 0 {
      FramesPending(rows, jobs, conns, n - 1);
      D.TickStep(jobs, n - 1, conns);
      hide D.Frames, D.Ready, D.Connected;
      assert jobs[n - 1].action !in D.Frames(jobs[..n - 1], conns);
    }
  }

  /** What `Dispatcher.Tick` does to rows and frames is a legal run of sends and marks, which
      may stop after a send. */
  lemma TickIsRun(s: System, jobs: seq<D.Job>, conns: set<string>, stop: nat, lastMarked: bool) returns (run: seq<Event>)
    requires stop <= |jobs| && Snapshot(s.rows, jobs)
    ensures Legal(s, run)
    ensures AfterAll(s, run) == s.(rows := D.Marked(s.rows, D.Frames(D.MarkedJobs(jobs, stop, lastMarked), conns)),
                                   frames := s.frames + multiset(D.Frames(jobs[..stop], conns)))
  {
    FramesPending(s.rows, jobs, conns, stop);
    var sent := D.Frames(jobs[..stop], conns);
    hide D.Frames, D.Marked, D.Connected, D.Ready, Legal, AfterAll, SendAndMark, Snapshot;
    SendAndMarkRun(s, sent);
    run := SendAndMark(sent);
    if stop > 0 && !lastMarked {
      var marked := D.Frames(jobs[..stop - 1], conns);
      D.TickStep(jobs, stop - 1, conns);
      if sent != marked {
        AllPendingInit(s.rows, sent);
        SentLast(s, marked, sent[|sent| - 1]);
        run := SendAndMark(marked) + [Send(sent[|sent| - 1])];
      }
    }
  }

  // ---- What the agent carries out was sent, and what the rows say is true ----

  predicate InStatus(s: System, id: ID, status: Status) { id in s.rows && s.rows[id] == status }

  ghost predicate Truthful(s: System) {
    && C.Sound(s.agent)
    && (forall id :: id in s.frames ==> id in s.rows)
    && (forall id :: id in s.agent.inFlight ==> id in s.rows)
    && (forall id :: id in s.agent.successes ==> id in s.rows)
    && (forall a :: a in s.answers && a.applied ==> a.id in s.agent.successes)
    && (forall id :: id in s.rows && s.rows[id] == Applied ==> id in s.agent.successes)
  }

  /** A command is delivered again while it is carried out for the first time. */
  ghost predicate Hasty(s: System, e: Event) {
    e.OnAgent? && e.step.Reserve? && e.step.id !in s.agent.successes &&
    exists p :: p in s.agent.procs && s.agent.procs[p].id == e.step.id
  }

  lemma AgentStepTruthful(s: System, step: C.Step)
    requires Truthful(s) && Possible(s, OnAgent(step)) && !Hasty(s, OnAgent(step))
    ensures Truthful(After(s, OnAgent(step)))
  {
    AnswerTruthful(s, step);
    hide C.Sound, C.Do, C.Answer, C.Enabled, Hasty;
    C.StepKeepsSound(s.agent, step);
    AgentKnowsOnlyOld(s.agent, step);
  }

  lemma AnswerTruthful(s: System, step: C.Step)
    requires C.Sound(s.agent) && C.Enabled(s.agent, step) && !Hasty(s, OnAgent(step))
    ensures match C.Answer(s.agent, step)
            case None => true
            case Some(answer) => answer.applied ==> answer.id in s.agent.successes
  {
    if step.Reserve? && step.id !in s.agent.successes {
      C.DuplicateIffRunning(s.agent, step.id);
    }
  }

  lemma AgentKnowsOnlyOld(a: C.Agent, step: C.Step)
    requires C.Sound(a) && C.Enabled(a, step)
    ensures var a' := C.Do(a, step);
            && (forall id :: id in a'.inFlight ==> id in a.inFlight || (step.Reserve? && id == step.id))
            && (forall id :: id in a'.successes ==> id in a.successes || id in a.inFlight)
            && (forall id :: id in a.successes ==> id in a'.successes)
  {
  }

  lemma ReceiveEffect(s: System, answer: C.Ack)
    requires answer in s.answers
    ensures var s' := After(s, Receive(answer));
            && s'.agent == s.agent && s'.frames == s.frames && s'.rows.Keys == s.rows.Keys
            && (forall a :: a in s'.answers ==> a in s.answers)
            && (forall id :: id in s'.rows && s'.rows[id] == Applied ==>
                  s.rows[id] == Applied || (id == answer.id && answer.applied))
  {
  }

  lemma ReceiveTruthful(s: System, answer: C.Ack)
    requires Truthful(s) && answer in s.answers
    ensures Truthful(After(s, Receive(answer)))
  {
    hide C.Sound, After;
    ReceiveEffect(s, answer);
    assert forall id :: id in After(s, Receive(answer)).rows <==> id in After(s, Receive(answer)).rows.Keys;
    assert forall id :: id in s.rows <==> id in s.rows.Keys;
  }

  lemma RestartTruthful(s: System)
    requires Truthful(s)
    ensures Truthful(After(s, Restart))
  {
    C.RestartIsSound(s.agent);
    hide C.Sound;
  }

  lemma OtherEffect(s: System, e: Event)
    requires Possible(s, e) && !e.OnAgent? && !e.Receive? && !e.Restart?
    ensures var s' := After(s, e);
            && s'.agent == s.agent
            && (forall id :: id in s'.frames ==> id in s.frames || id in s.rows)
            && (forall id :: id in s.rows ==> id in s'.rows)
            && (forall a :: a in s'.answers && a.applied ==> a in s.answers)
            && (forall id :: id in s'.rows && s'.rows[id] == Applied ==> id in s.rows && s.rows[id] == Applied)
  {
    hide C.Enabled, C.Do, C.Answer;
    var s' := After(s, e);
    match e
    case Write(_) =>
    case Send(_) =>
    case Mark(_) =>
    case Reject(_) =>
    case LoseFrame(_) =>
    case LoseAnswer(_) =>
  }

  lemma OtherTruthful(s: System, e: Event)
    requires Truthful(s) && Possible(s, e) && !e.OnAgent? && !e.Receive? && !e.Restart?
    ensures Truthful(After(s, e))
  {
    OtherEffect(s, e);
    hide C.Sound, After, Possible;
  }

  lemma StepTruthful(s: System, e: Event)
    requires Truthful(s) && Possible(s, e) && !Hasty(s, e)
    ensures Truthful(After(s, e))
  {
    hide Truthful, Hasty, After;
    if e.OnAgent? {
      AgentStepTruthful(s, e.step);
    } else if e.Receive? {
      ReceiveTruthful(s, e.answer);
    } else if e.Restart? {
      RestartTruthful(s);
    } else {
      OtherTruthful(s, e);
    }
  }

  /** A hasty delivery is answered "applied" although the command has not succeeded. */
  lemma HastyLies(s: System, e: Event)
    requires Truthful(s) && Possible(s, e) && Hasty(s, e)
    ensures !Truthful(After(s, e))
  {
    C.DuplicateIffRunning(s.agent, e.step.id);
    assert C.Ack(e.step.id, true) in After(s, e).answers;
  }

  lemma StartTruthful()
    ensures Truthful(START)
  {
  }

  ghost predicate AlwaysTruthful(run: seq<Event>) {
    forall n: nat :: n <= |run| ==> Truthful(AfterAll(START, run[..n]))
  }

  ghost predicate NeverHasty(run: seq<Event>) {
    forall n: nat :: n < |run| ==> !Hasty(AfterAll(START, run[..n]), run[n])
  }

  lemma LegalPrefix(s: System, run: seq<Event>, n: nat)
    requires Legal(s, run) && n < |run|
    ensures Legal(s, run[..n]) && Possible(AfterAll(s, run[..n]), run[n])
    ensures AfterAll(s, run[..n + 1]) == After(AfterAll(s, run[..n]), run[n])
  {
    hide Possible, After;
    assert run[..n + 1][..n] == run[..n];
    if n < |run| - 1 {
      var init := run[..|run| - 1];
      LegalPrefix(s, init, n);
      assert init[..n] == run[..n] && init[..n + 1] == run[..n + 1];
    } else {
      assert run[..n + 1] == run;
    }
  }

  lemma {:induction false} TruthfulUpTo(run: seq<Event>, n: nat)
    requires Legal(START, run) && NeverHasty(run) && n <= |run|
    ensures Truthful(AfterAll(START, run[..n]))
  {
    StartTruthful();
    hide Truthful, Hasty, Legal;
    if n > 0 {
      TruthfulUpTo(run, n - 1);
      LegalPrefix(START, run, n - 1);
      hide AfterAll, After;
      StepTruthful(AfterAll(START, run[..n - 1]), run[n - 1]);
    }
  }

  /** What is known at every moment of a run is true - rows and answers that say "applied" belong
      to commands that the agent carried out successfully, and it carries out only commands that
      were written - if and only if no command is delivered again while it is carried out for the
      first time. Lost frames, lost answers and restarts do not matter. */
  lemma AppliedRowsAreTrueIff(run: seq<Event>)
    requires Legal(START, run)
    ensures AlwaysTruthful(run) <==> NeverHasty(run)
  {
    hide Truthful, Hasty, Legal, AfterAll;
    if NeverHasty(run) {
      forall n: nat | n <= |run| ensures Truthful(AfterAll(START, run[..n])) {
        TruthfulUpTo(run, n);
      }
    }
    if AlwaysTruthful(run) {
      forall n: nat | n < |run| ensures !Hasty(AfterAll(START, run[..n]), run[n]) {
        LegalPrefix(START, run, n);
        assert Truthful(AfterAll(START, run[..n])) && Truthful(AfterAll(START, run[..n + 1]));
        if Hasty(AfterAll(START, run[..n]), run[n]) {
          HastyLies(AfterAll(START, run[..n]), run[n]);
        }
      }
    }
  }

  /** The agent reserves a command only when it has answered the one before. */
  ghost predicate Serial(run: seq<Event>) {
    forall n: nat :: n < |run| && run[n].OnAgent? && run[n].step.Reserve? ==>
      AfterAll(START, run[..n]).agent.procs == map[]
  }

  /** With the agent's one command reader, no delivery is hasty. */
  lemma SerialIsNeverHasty(run: seq<Event>)
    requires Serial(run)
    ensures NeverHasty(run)
  {
    forall n: nat | n < |run| ensures !Hasty(AfterAll(START, run[..n]), run[n]) {
      hide AfterAll;
    }
  }

  // ---- When a failure is true ----

  /** Rows and answers that say "failed" belong to commands that are not known to have succeeded. */
  ghost predicate FailuresTrue(s: System) {
    && (forall a :: a in s.answers && !a.applied ==> a.id !in s.agent.successes)
    && (forall id :: id in s.rows && s.rows[id] == Failed ==> id !in s.agent.successes)
  }

  /** A command is answered "failed" after a success, or succeeds after a failure was told. */
  ghost predicate Belies(s: System, e: Event) {
    || (e.Reject? && e.id in s.agent.successes)
    || (e.OnAgent? && e.step.Release? && e.step.p in s.agent.procs
        && !s.agent.procs[e.step.p].Remembered? && s.agent.procs[e.step.p].id in s.agent.successes)
    || (e.OnAgent? && e.step.Remember? && e.step.p in s.agent.procs && FailureTold(s, s.agent.procs[e.step.p].id))
  }

  ghost predicate FailureTold(s: System, id: ID) { InStatus(s, id, Failed) || C.Ack(id, false) in s.answers }

  lemma RememberFailures(s: System, step: C.Step)
    requires FailuresTrue(s) && step.Remember? && step.p in s.agent.procs
    ensures FailuresTrue(After(s, OnAgent(step))) <==> !FailureTold(s, s.agent.procs[step.p].id)
  {
    var s', id := After(s, OnAgent(step)), s.agent.procs[step.p].id;
    assert s'.agent.successes == s.agent.successes + [id] && s'.answers == s.answers && s'.rows == s.rows;
    hide C.Do, C.Answer, After;
    assert forall other :: other in s.agent.successes + [id] <==> other in s.agent.successes || other == id;
  }

  lemma ReleaseFailures(s: System, step: C.Step)
    requires FailuresTrue(s) && step.Release? && step.p in s.agent.procs
    ensures FailuresTrue(After(s, OnAgent(step))) <==>
      s.agent.procs[step.p].Remembered? || s.agent.procs[step.p].id !in s.agent.successes
  {
    var s', ack := After(s, OnAgent(step)), C.Ack(s.agent.procs[step.p].id, s.agent.procs[step.p].Remembered?);
    assert s'.agent.successes == s.agent.successes && s'.answers == s.answers + multiset{ack} && s'.rows == s.rows;
    hide C.Do, C.Answer, After;
    assert forall a :: a in s.answers + multiset{ack} <==> a in s.answers || a == ack;
  }

  lemma QuietFailures(s: System, step: C.Step)
    requires FailuresTrue(s) && (step.Reserve? || step.Finish?)
    ensures FailuresTrue(After(s, OnAgent(step)))
  {
    var s' := After(s, OnAgent(step));
    assert s'.agent.successes == s.agent.successes && s'.rows == s.rows;
    assert forall a :: a in s'.answers && !a.applied ==> a in s.answers;
    hide C.Do, C.Answer, After;
  }

  lemma AgentFailures(s: System, step: C.Step)
    requires FailuresTrue(s) && C.Enabled(s.agent, step)
    ensures FailuresTrue(After(s, OnAgent(step))) <==> !Belies(s, OnAgent(step))
  {
    hide FailuresTrue, FailureTold, After;
    match step
    case Reserve(_, _) => QuietFailures(s, step);
    case Finish(_, _) => QuietFailures(s, step);
    case Remember(_, _, _) => RememberFailures(s, step);
    case Release(_) => ReleaseFailures(s, step);
  }

  lemma OtherFailures(s: System, e: Event)
    requires FailuresTrue(s) && Possible(s, e) && !e.OnAgent?
    ensures FailuresTrue(After(s, e)) <==> !Belies(s, e)
  {
    hide C.Enabled, C.Do, C.Answer;
    match e
    case Write(_) =>
    case Send(_) =>
    case Mark(_) =>
    case Reject(id) => assert C.Ack(id, false) in After(s, e).answers;
    case Receive(_) =>
    case LoseFrame(_) =>
    case LoseAnswer(_) =>
    case Restart =>
  }

  lemma FailuresStep(s: System, e: Event)
    requires FailuresTrue(s) && Possible(s, e)
    ensures FailuresTrue(After(s, e)) <==> !Belies(s, e)
  {
    if e.OnAgent? {
      hide FailuresTrue, Belies, After;
      AgentFailures(s, e.step);
    } else {
      hide FailuresTrue, Belies, After, Possible;
      OtherFailures(s, e);
    }
  }

  ghost predicate FailuresTrueUpTo(run: seq<Event>, n: nat)
    requires n <= |run|
  {
    forall k: nat :: k <= n ==> FailuresTrue(AfterAll(START, run[..k]))
  }

  ghost predicate NeverBelied(run: seq<Event>, n: nat)
    requires n <= |run|
  {
    forall k: nat :: k < n ==> !Belies(AfterAll(START, run[..k]), run[k])
  }

  lemma NoStepYet(run: seq<Event>)
    ensures FailuresTrueUpTo(run, 0) && NeverBelied(run, 0)
  {
    assert AfterAll(START, run[..0]) == START;
    assert FailuresTrue(START);
    hide FailuresTrue, AfterAll;
  }

  lemma OneStepMore(run: seq<Event>, n: nat)
    requires n < |run|
    ensures FailuresTrueUpTo(run, n) ==> FailuresTrue(AfterAll(START, run[..n]))
    ensures FailuresTrueUpTo(run, n + 1) <==> FailuresTrueUpTo(run, n) && FailuresTrue(AfterAll(START, run[..n + 1]))
    ensures NeverBelied(run, n + 1) <==> NeverBelied(run, n) && !Belies(AfterAll(START, run[..n]), run[n])
  {
    hide FailuresTrue, Belies, AfterAll;
  }

  /** What is said to have failed did not succeed, at every moment of the first `n` steps, if and
      only if none of these steps answers "failed" after a success or succeeds after a failure. */
  lemma {:induction false} FailedRowsAreTrueIff(run: seq<Event>, n: nat)
    requires Legal(START, run) && n <= |run|
    ensures FailuresTrueUpTo(run, n) <==> NeverBelied(run, n)
  {
    hide *;
    if n == 0 {
      NoStepYet(run);
    } else {
      FailedRowsAreTrueIff(run, n - 1);
      LegalPrefix(START, run, n - 1);
      OneStepMore(run, n - 1);
      if FailuresTrue(AfterAll(START, run[..n - 1])) {
        FailuresStep(AfterAll(START, run[..n - 1]), run[n - 1]);
      }
    }
  }

  // ---- When a dispatched row is lost ----

  /** Nothing about `id` is on its way, and nobody works on it. */
  ghost predicate Quiet(s: System, id: ID) {
    id !in s.frames && NoAnswers(s, id) && NoHandlers(s, id)
  }

  ghost predicate NoAnswers(s: System, id: ID) { forall a :: a in s.answers ==> a.id != id }

  ghost predicate NoHandlers(s: System, id: ID) { forall p :: p in s.agent.procs ==> s.agent.procs[p].id != id }

  /** The row waits for an answer that will never come. */
  ghost predicate Stuck(s: System, id: ID) { InStatus(s, id, Dispatched) && Quiet(s, id) }

  /** The ways to lose a row: it is marked when its answer has already been dropped, or the last
      frame, the last answer or the last handler of it is lost. */
  ghost predicate Strands(s: System, e: Event, id: ID) {
    || (e == Mark(id) && InStatus(s, id, Pending) && Quiet(s, id))
    || (e == LoseFrame(id) && InStatus(s, id, Dispatched) && s.frames[id] == 1 && NoAnswers(s, id) && NoHandlers(s, id))
    || (e.LoseAnswer? && e.answer.id == id && InStatus(s, id, Dispatched) && id !in s.frames && NoHandlers(s, id)
        && s.answers[e.answer] == 1 && forall a :: a in s.answers && a.id == id ==> a == e.answer)
    || (e.Restart? && InStatus(s, id, Dispatched) && id !in s.frames && NoAnswers(s, id) && !NoHandlers(s, id))
  }

  lemma NoAnswersStay(s: System, step: C.Step, id: ID)
    requires C.Enabled(s.agent, step) && (step.Reserve? ==> step.id in s.frames) && Quiet(s, id)
    ensures NoAnswers(After(s, OnAgent(step)), id)
  {
    assert C.Answer(s.agent, step).Some? ==> C.Answer(s.agent, step).value.id != id;
    hide C.Do, C.Answer, C.Enabled;
  }

  lemma NoHandlersStay(a: C.Agent, step: C.Step, id: ID)
    requires (step.Reserve? ==> step.id != id) && forall p :: p in a.procs ==> a.procs[p].id != id
    ensures forall p :: p in C.Do(a, step).procs ==> C.Do(a, step).procs[p].id != id
  {
  }

  lemma QuietStays(s: System, step: C.Step, id: ID)
    requires Possible(s, OnAgent(step)) && Quiet(s, id)
    ensures Quiet(After(s, OnAgent(step)), id)
  {
    NoAnswersStay(s, step, id);
    NoHandlersStay(s.agent, step, id);
    hide C.Do, C.Answer, C.Enabled, NoAnswers;
  }

  lemma AnswersGrow(s: System, step: C.Step)
    ensures s.answers <= After(s, OnAgent(step)).answers
  {
    hide C.Do, C.Answer;
  }

  lemma AnswerStays(s: System, step: C.Step, id: ID)
    requires !NoAnswers(s, id)
    ensures !NoAnswers(After(s, OnAgent(step)), id)
  {
    AnswersGrow(s, step);
    hide After;
    var a :| a in s.answers && a.id == id;
    assert a in After(s, OnAgent(step)).answers;
  }

  lemma ReleaseAnswers(s: System, p: nat)
    requires p in s.agent.procs
    ensures C.Ack(s.agent.procs[p].id, s.agent.procs[p].Remembered?) in After(s, OnAgent(C.Release(p))).answers
  {
    hide C.Do;
  }

  lemma HandlerStays(a: C.Agent, step: C.Step, p: nat)
    requires C.Enabled(a, step) && p in a.procs && step != C.Release(p)
    ensures p in C.Do(a, step).procs && C.Do(a, step).procs[p].id == a.procs[p].id
  {
  }

  lemma HandlerMoves(s: System, step: C.Step, id: ID)
    requires C.Enabled(s.agent, step) && !NoHandlers(s, id)
    ensures var s' := After(s, OnAgent(step)); !NoAnswers(s', id) || !NoHandlers(s', id)
  {
    var p :| p in s.agent.procs && s.agent.procs[p].id == id;
    assert After(s, OnAgent(step)).agent == C.Do(s.agent, step);
    hide C.Do, C.Answer, C.Enabled, After;
    if step == C.Release(p) {
      ReleaseAnswers(s, p);
    } else {
      HandlerStays(s.agent, step, p);
    }
  }

  lemma FrameMoves(s: System, step: C.Step, id: ID)
    requires C.Enabled(s.agent, step) && id in s.frames
    ensures var s' := After(s, OnAgent(step)); id in s'.frames || !NoAnswers(s', id) || !NoHandlers(s', id)
  {
    var s' := After(s, OnAgent(step));
    if step.Reserve? && step.id == id {
      if C.Duplicate(s.agent, id) {
        assert C.Ack(id, true) in s'.answers;
      } else {
        assert s'.agent.procs[step.p].id == id;
      }
    }
  }

  /** A step of the agent only moves what is on its way: a frame to a handler or an answer, and a
      handler to an answer. */
  lemma AgentStepMoves(s: System, step: C.Step, id: ID)
    requires Possible(s, OnAgent(step)) && !Quiet(s, id)
    ensures !Quiet(After(s, OnAgent(step)), id)
  {
    hide After, NoAnswers, NoHandlers, C.Enabled;
    if !NoAnswers(s, id) {
      AnswerStays(s, step, id);
    } else if !NoHandlers(s, id) {
      HandlerMoves(s, step, id);
    } else {
      FrameMoves(s, step, id);
    }
  }

  lemma AgentStepSticks(s: System, step: C.Step, id: ID)
    requires Possible(s, OnAgent(step))
    ensures Stuck(After(s, OnAgent(step)), id) <==> Stuck(s, id)
  {
    assert After(s, OnAgent(step)).rows == s.rows by { hide C.Do, C.Answer, C.Enabled; }
    hide Possible, Quiet, After;
    if Quiet(s, id) {
      QuietStays(s, step, id);
    } else {
      AgentStepMoves(s, step, id);
    }
  }

  lemma ReceiveSticks(s: System, answer: C.Ack, id: ID)
    requires answer in s.answers
    ensures Stuck(After(s, Receive(answer)), id) <==> Stuck(s, id)
  {
    var s' := After(s, Receive(answer));
    if Stuck(s', id) {
      forall a | a in s.answers ensures a.id != id {
        assert a == answer || a in s'.answers;
      }
    }
  }

  lemma FrameLossStrands(s: System, lost: ID, id: ID)
    requires lost in s.frames
    ensures Stuck(After(s, LoseFrame(lost)), id) <==> Stuck(s, id) || Strands(s, LoseFrame(lost), id)
  {
    hide NoAnswers;
    assert NoAnswers(After(s, LoseFrame(lost)), id) == NoAnswers(s, id) by { SameAnswers(s, After(s, LoseFrame(lost)), id); }
  }

  lemma SameAnswers(s: System, s': System, id: ID)
    requires s'.answers == s.answers
    ensures NoAnswers(s, id) == NoAnswers(s', id)
  {
  }

  lemma AnswerLossStrands(s: System, lost: C.Ack, id: ID)
    requires lost in s.answers
    ensures Stuck(After(s, LoseAnswer(lost)), id) <==> Stuck(s, id) || Strands(s, LoseAnswer(lost), id)
  {
    hide NoHandlers;
    var s' := After(s, LoseAnswer(lost));
    assert NoHandlers(s', id) == NoHandlers(s, id) by { SameHandlers(s, s', id); }
    assert forall a :: a in s'.answers <==> a in s.answers && (a != lost || s.answers[lost] > 1);
  }

  lemma SameHandlers(s: System, s': System, id: ID)
    requires s'.agent == s.agent
    ensures NoHandlers(s, id) == NoHandlers(s', id)
  {
  }

  lemma RestartStrands(s: System, id: ID)
    ensures Stuck(After(s, Restart), id) <==> Stuck(s, id) || Strands(s, Restart, id)
  {
    assert NoHandlers(After(s, Restart), id);
    assert NoAnswers(After(s, Restart), id) == NoAnswers(s, id) by { SameAnswers(s, After(s, Restart), id); }
    hide NoHandlers, NoAnswers;
  }

  lemma RejectSticks(s: System, e: Event, id: ID)
    requires Possible(s, e) && e.Reject?
    ensures Stuck(After(s, e), id) <==> Stuck(s, id)
  {
    assert C.Ack(e.id, false) in After(s, e).answers;
    if Stuck(After(s, e), id) {
      forall a | a in s.answers ensures a.id != id {
        assert a in After(s, e).answers;
      }
    }
  }

  lemma ServerStrands(s: System, e: Event, id: ID)
    requires Possible(s, e) && (e.Write? || e.Send? || e.Mark?)
    ensures Stuck(After(s, e), id) <==> Stuck(s, id) || Strands(s, e, id)
  {
  }

  lemma Arrives(s: System, answer: C.Ack)
    requires Possible(s, Receive(answer)) || Possible(s, LoseAnswer(answer))
    ensures answer in s.answers
  {
  }

  lemma FrameThere(s: System, id: ID)
    requires Possible(s, LoseFrame(id))
    ensures id in s.frames
  {
  }

  /** One step: a row is stuck afterwards if and only if it was, or the step loses it. */
  lemma StuckStep(s: System, e: Event, id: ID)
    requires Possible(s, e)
    ensures Stuck(After(s, e), id) <==> Stuck(s, id) || Strands(s, e, id)
  {
    hide Possible, After, Stuck, Quiet;
    match e
    case OnAgent(step) => AgentStepSticks(s, step, id);
    case Receive(answer) =>
      Arrives(s, answer);
      ReceiveSticks(s, answer, id);
    case Reject(_) => RejectSticks(s, e, id);
    case LoseFrame(lost) =>
      FrameThere(s, lost);
      FrameLossStrands(s, lost, id);
    case LoseAnswer(answer) =>
      Arrives(s, answer);
      AnswerLossStrands(s, answer, id);
    case Restart => RestartStrands(s, id);
    case _ => ServerStrands(s, e, id);
  }

  ghost predicate Lost(s: System, run: seq<Event>, id: ID) {
    exists n: nat :: n < |run| && Strands(AfterAll(s, run[..n]), run[n], id)
  }

  lemma LostStep(s: System, run: seq<Event>, id: ID)
    requires run != []
    ensures var n := |run| - 1; Lost(s, run, id) <==> Lost(s, run[..n], id) || Strands(AfterAll(s, run[..n]), run[n], id)
  {
    hide AfterAll, Strands;
    var init := run[..|run| - 1];
    assert forall n: nat :: n < |init| ==> init[..n] == run[..n];
  }

  /** Whole runs: a row is stuck if and only if some step of the run lost it. */
  lemma {:induction false} StuckIffLost(s: System, run: seq<Event>, id: ID)
    requires Legal(s, run) && !Stuck(s, id)
    ensures Stuck(AfterAll(s, run), id) <==> Lost(s, run, id)
  {
    hide Possible, After, Stuck, Strands;
    if run != [] {
      var init := run[..|run| - 1];
      StuckIffLost(s, init, id);
      StuckStep(AfterAll(s, init), run[|run| - 1], id);
      LostStep(s, run, id);
    }
  }

  lemma {:induction false} StuckForever(s: System, run: seq<Event>, id: ID)
    requires Stuck(s, id) && Legal(s, run)
    ensures Stuck(AfterAll(s, run), id)
  {
    hide Possible, After, Stuck, Strands;
    if run != [] {
      StuckForever(s, run[..|run| - 1], id);
      StuckStep(AfterAll(s, run[..|run| - 1]), run[|run| - 1], id);
    }
  }

  // ---- And when it is not ----

  predicate Settled(s: System, id: ID) { InStatus(s, id, Applied) || InStatus(s, id, Failed) }

  /** Some continuation settles the row. */
  ghost predicate CanSettle(s: System, id: ID) {
    exists run :: Legal(s, run) && Settled(AfterAll(s, run), id)
  }

  lemma {:induction false} LegalFirst(s: System, e: Event, run: seq<Event>)
    ensures Legal(s, [e] + run) <==> Possible(s, e) && Legal(After(s, e), run)
    ensures AfterAll(s, [e] + run) == AfterAll(After(s, e), run)
  {
    hide Possible, After;
    if run == [] {
      assert [e] + run == [] + [e];
      LegalThen(s, [], e);
    } else {
      var init, last := run[..|run| - 1], run[|run| - 1];
      assert [e] + run == ([e] + init) + [last];
      LegalFirst(s, e, init);
      LegalThen(s, [e] + init, last);
    }
  }

  lemma SettlesLater(s: System, e: Event, id: ID)
    requires Possible(s, e) && CanSettle(After(s, e), id)
    ensures CanSettle(s, id)
  {
    hide Possible, After, Legal, AfterAll, Settled;
    var run :| Legal(After(s, e), run) && Settled(AfterAll(After(s, e), run), id);
    LegalFirst(s, e, run);
  }

  lemma SettlesNow(s: System, id: ID)
    requires Settled(s, id)
    ensures CanSettle(s, id)
  {
    assert Legal(s, []) && AfterAll(s, []) == s;
  }

  lemma AnswerSettles(s: System, answer: C.Ack)
    requires InStatus(s, answer.id, Dispatched) && answer in s.answers
    ensures CanSettle(s, answer.id)
  {
    SettlesNow(After(s, Receive(answer)), answer.id);
    hide CanSettle;
    SettlesLater(s, Receive(answer), answer.id);
  }

  lemma ReleaseSettles(s: System, id: ID, p: nat)
    requires InStatus(s, id, Dispatched) && p in s.agent.procs && s.agent.procs[p].id == id
    requires C.Enabled(s.agent, C.Release(p))
    ensures CanSettle(s, id)
  {
    hide CanSettle;
    var e := OnAgent(C.Release(p));
    AnswerSettles(After(s, e), C.Answer(s.agent, C.Release(p)).value);
    SettlesLater(s, e, id);
  }

  lemma HandlerSettles(s: System, id: ID, p: nat)
    requires InStatus(s, id, Dispatched) && p in s.agent.procs && s.agent.procs[p].id == id
    ensures CanSettle(s, id)
  {
    hide CanSettle;
    match s.agent.procs[p]
    case Running(_) =>
      var e := OnAgent(C.Finish(p, false));
      ReleaseSettles(After(s, e), id, p);
      SettlesLater(s, e, id);
    case Finished(_, ok) =>
      if ok {
        var victim := C.VictimExists(s.agent.appliedAt);
        hide C.Evicts;
        var e := OnAgent(C.Remember(p, s.agent.clock + 1, victim));
        ReleaseSettles(After(s, e), id, p);
        SettlesLater(s, e, id);
      } else {
        ReleaseSettles(s, id, p);
      }
    case Remembered(_) =>
      ReleaseSettles(s, id, p);
  }

  lemma FrameSettles(s: System, id: ID)
    requires InStatus(s, id, Dispatched) && id in s.frames
    ensures CanSettle(s, id)
  {
    hide CanSettle;
    AnswerSettles(After(s, Reject(id)), C.Ack(id, false));
    SettlesLater(s, Reject(id), id);
  }

  /** A dispatched row can still become applied or failed if and only if it is not stuck. */
  lemma SettlesIffNotStuck(s: System, id: ID)
    requires InStatus(s, id, Dispatched)
    ensures CanSettle(s, id) <==> !Stuck(s, id)
  {
    if CanSettle(s, id) {
      var run :| Legal(s, run) && Settled(AfterAll(s, run), id);
      if Stuck(s, id) { StuckForever(s, run, id); }
    } else if !Stuck(s, id) {
      hide CanSettle;
      if id in s.frames {
        FrameSettles(s, id);
      } else if !NoAnswers(s, id) {
        var a :| a in s.answers && a.id == id;
        AnswerSettles(s, a);
      } else {
        var p :| p in s.agent.procs && s.agent.procs[p].id == id;
        HandlerSettles(s, id, p);
      }
    }
  }

  /** Hence, after any run from the start: a dispatched row can never be settled any more if and
      only if some step of the run marked it too late or lost its last frame or answer. */
  lemma NeverSettlesIffLost(run: seq<Event>, id: ID)
    requires Legal(START, run) && InStatus(AfterAll(START, run), id, Dispatched)
    ensures !CanSettle(AfterAll(START, run), id) <==> Lost(START, run, id)
  {
    hide CanSettle, Lost, Legal, AfterAll, Quiet;
    assert !Stuck(START, id);
    StuckIffLost(START, run, id);
    SettlesIffNotStuck(AfterAll(START, run), id);
  }

  // ---- A concrete run that loses a row without losing a message ----

  /** `run` is a legal run that ends in `s`. */
  ghost predicate Reaches(run: seq<Event>, s: System) { Legal(START, run) && AfterAll(START, run) == s }

  lemma Then(run: seq<Event>, s: System, e: Event) returns (run': seq<Event>, s': System)
    requires Reaches(run, s) && Possible(s, e)
    ensures Reaches(run', s') && s' == After(s, e)
  {
    hide Possible, After;
    LegalThen(START, run, e);
    return run + [e], After(s, e);
  }

  lemma Delivered() returns (run: seq<Event>, s: System)
    ensures Reaches(run, s) && s.rows == map["x" := Pending] && s.answers == multiset{} && s.frames == multiset{}
    ensures s.agent == C.START.(inFlight := {"x"}, procs := map[0 := C.Running("x")])
  {
    run, s := [], START;
    assert Reaches(run, s);
    hide Reaches;
    run, s := Then(run, s, Write("x"));
    run, s := Then(run, s, Send("x"));
    run, s := Then(run, s, OnAgent(C.Reserve(0, "x")));
  }

  lemma Answered() returns (run: seq<Event>, s: System)
    ensures Reaches(run, s) && s.rows == map["x" := Pending] && s.frames == multiset{}
    ensures s.answers == multiset{C.Ack("x", true)} && s.agent.procs == map[] && s.agent.successes == ["x"]
  {
    run, s := Delivered();
    hide Reaches;
    run, s := Then(run, s, OnAgent(C.Finish(0, true)));
    assert s.agent.procs[0] == C.Finished("x", true);
    run, s := Then(run, s, OnAgent(C.Remember(0, 1, None)));
    assert s.agent.procs[0] == C.Remembered("x");
    run, s := Then(run, s, OnAgent(C.Release(0)));
  }

  /** The command is carried out and answered before the dispatcher marks the row. */
  lemma AnswerBeforeMarkSticks() returns (run: seq<Event>, s: System)
    ensures Reaches(run, s) && Stuck(s, "x") && "x" in s.agent.successes
  {
    run, s := Answered();
    hide Reaches;
    run, s := Then(run, s, Receive(C.Ack("x", true)));
    run, s := Then(run, s, Mark("x"));
  }

  lemma SentAgain() returns (run: seq<Event>, s: System)
    ensures Reaches(run, s) && s.rows == map["x" := Dispatched] && "x" in s.frames && "x" in s.agent.successes
  {
    run, s := Answered();
    hide Reaches;
    run, s := Then(run, s, Receive(C.Ack("x", true)));
    run, s := Then(run, s, Send("x"));
    run, s := Then(run, s, Mark("x"));
  }

  /** The same command can be sent again before its row is marked, and then be refused: a row that
      says "failed" although the command succeeded. */
  lemma FailedThoughSucceeded() returns (run: seq<Event>, s: System)
    ensures Reaches(run, s) && InStatus(s, "x", Failed) && "x" in s.agent.successes
  {
    run, s := SentAgain();
    hide Reaches;
    run, s := Then(run, s, Reject("x"));
    run, s := Then(run, s, Receive(C.Ack("x", false)));
  }
}
