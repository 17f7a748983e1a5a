/**
 The server half of command execution: action rows and their compare-and-set updates
 (server/src/zaqorincore_server/detectors/action_service.py) and the dispatcher tick that sends
 before it marks (server/src/zaqorincore_server/dispatcher.py:227-270).
 */
module ActionModel {
  import opened Wrappers

  datatype Status = Pending | Dispatched | Applied | Failed

  type Rows = map<ID, Status>

  /** UPDATE ... WHERE id = ... AND status = `from` */
  function CompareAndSet(rows: Rows, id: ID, from: Status, to: Status): Rows {
    if id in rows && rows[id] == from then rows[id := to] else rows
  }

  /** The order of the life cycle; the two final states are not comparable. */
  predicate Precedes(s: Status, t: Status) {
    s == t || s == Pending || (s == Dispatched && t != Pending)
  }
}

module ActionService {
  import opened ActionModel
  import opened Wrappers

  class ActionTable {
    var rows: Rows

    constructor ()
      ensures rows == map[]
    {
      rows := map[];
    }

    /** `newId` is the random identifier of the new row. */
    method WriteAction(newId: ID) returns (id: ID)
      requires newId !in rows
      modifies this
      ensures id == newId && rows == old(rows)[id := Pending]
    {
      rows := rows[newId := Pending];
      return newId;
    }

    method Update(id: ID, from: Status, to: Status) returns (updated: bool)
      modifies this
      ensures rows == CompareAndSet(old(rows), id, from, to)
      ensures updated <==> id in old(rows) && old(rows)[id] == from
    {
      updated := id in rows && rows[id] == from;
      if updated {
        rows := rows[id := to];
      }
    }

    method MarkDispatched(id: ID) returns (updated: bool)
      modifies this
      ensures rows == CompareAndSet(old(rows), id, Pending, Dispatched)
      ensures updated <==> id in old(rows) && old(rows)[id] == Pending
    {
      updated := Update(id, Pending, Dispatched);
    }

    method MarkApplied(id: ID) returns (updated: bool)
      modifies this
      ensures rows == CompareAndSet(old(rows), id, Dispatched, Applied)
      ensures updated <==> id in old(rows) && old(rows)[id] == Dispatched
    {
      updated := Update(id, Dispatched, Applied);
    }

    method MarkFailed(id: ID) returns (updated: bool)
      modifies this
      ensures rows == CompareAndSet(old(rows), id, Dispatched, Failed)
      ensures updated <==> id in old(rows) && old(rows)[id] == Dispatched
    {
      updated := Update(id, Dispatched, Failed);
    }
  }
}

module DispatchModel {
  import opened ActionModel
  import opened Wrappers

  /** One row of the tick's snapshot: the action, its host (absent when the host was deleted),
      whether that host opted in, whether a command frame can be built, and whether the host's
      connection takes the frame if it is offered. */
  datatype Job = Job(action: ID, host: string, hostExists: bool, autoBlock: bool, frameBuilt: bool, accepted: bool)

  predicate Ready(job: Job) { job.hostExists && job.autoBlock && job.frameBuilt }

  /** None of the jobs finds the connection of `host` dead. */
  predicate Alive(jobs: seq<Job>, host: string) {
    forall i :: 0 <= i < |jobs| && jobs[i].host == host && Ready(jobs[i]) ==> jobs[i].accepted
  }

  /** The job's frame goes out, after the jobs `before`. */
  predicate Delivered(job: Job, before: seq<Job>, conns: set<string>) {
    Ready(job) && job.accepted && job.host in conns && Alive(before, job.host)
  }

  /** The frames that go out for the jobs, in order. */
  function Frames(jobs: seq<Job>, conns: set<string>): seq<ID> {
    if jobs == [] then [] else
      var before, job := jobs[..|jobs| - 1], jobs[|jobs| - 1];
      Frames(before, conns) + if Delivered(job, before, conns) then [job.action] else []
  }

  function Connected(jobs: seq<Job>, conns: set<string>): set<string> {
    set h | h in conns && Alive(jobs, h)
  }

  /** Those of `ids` that were pending are dispatched; all other rows are as they were. */
  function Marked(rows: Rows, ids: seq<ID>): Rows {
    map id | id in rows :: if rows[id] == Pending && id in ids then Dispatched else rows[id]
  }

  /** The jobs whose mark happens, when the tick stops after `stop` jobs. */
  function MarkedJobs(jobs: seq<Job>, stop: nat, lastMarked: bool): seq<Job>
    requires stop <= |jobs|
  {
    jobs[..if stop == 0 || lastMarked then stop else stop - 1]
  }

  lemma AliveStep(jobs: seq<Job>, job: Job, host: string)
    ensures Alive(jobs + [job], host) <==> Alive(jobs, host) && (job.host == host && Ready(job) ==> job.accepted)
  {
    var longer := jobs + [job];
    if Alive(longer, host) {
      forall i | 0 <= i < |jobs| && jobs[i].host == host && Ready(jobs[i]) ensures jobs[i].accepted {
        assert longer[i] == jobs[i];
      }
      assert longer[|jobs|] == job;
    }
  }

  /** One more job. */
  lemma TickStep(jobs: seq<Job>, i: nat, conns: set<string>)
    requires i < |jobs|
    ensures var job, c := jobs[i], Connected(jobs[..i], conns);
            && Frames(jobs[..i + 1], conns)
               == (if Ready(job) && job.host in c && job.accepted then Frames(jobs[..i], conns) + [job.action]
                   else Frames(jobs[..i], conns))
            && Connected(jobs[..i + 1], conns) == if Ready(job) && job.host in c && !job.accepted then c - {job.host} else c
  {
    assert jobs[..i + 1] == jobs[..i] + [jobs[i]] && jobs[..i + 1][..i] == jobs[..i];
    forall h ensures Alive(jobs[..i + 1], h) <==> Alive(jobs[..i], h) && (jobs[i].host == h && Ready(jobs[i]) ==> jobs[i].accepted) {
      AliveStep(jobs[..i], jobs[i], h);
    }
    hide Alive, Ready;
  }

  // ---- What goes out, in terms of the jobs' own fields ----

  lemma AliveIff(jobs: seq<Job>, host: string)
    ensures Alive(jobs, host) <==>
      !exists j :: 0 <= j < |jobs| && jobs[j].host == host
                   && jobs[j].hostExists && jobs[j].autoBlock && jobs[j].frameBuilt && !jobs[j].accepted
  {
  }

  /** The frame of job `i` goes out exactly when its host exists, has opted in and is connected, the
      frame can be built and is taken, and no earlier offer to that host failed. */
  ghost predicate GoesOut(jobs: seq<Job>, i: nat, conns: set<string>)
    requires i < |jobs|
  {
    && jobs[i].hostExists && jobs[i].autoBlock && jobs[i].frameBuilt && jobs[i].accepted && jobs[i].host in conns
    && !exists j :: 0 <= j < i && jobs[j].host == jobs[i].host
                    && jobs[j].hostExists && jobs[j].autoBlock && jobs[j].frameBuilt && !jobs[j].accepted
  }

  lemma GoesOutIff(jobs: seq<Job>, n: nat, conns: set<string>)
    requires n < |jobs|
    ensures GoesOut(jobs, n, conns) <==> Delivered(jobs[n], jobs[..n], conns)
  {
    AliveIff(jobs[..n], jobs[n].host);
    assert forall j :: 0 <= j < n ==> jobs[..n][j] == jobs[j];
    hide Alive;
  }

  /** The frames are those of the jobs at the positions `at`, in the order of the jobs, and these
      are exactly the positions whose frames go out. */
  ghost predicate SentFrom(jobs: seq<Job>, conns: set<string>, frames: seq<ID>, at: seq<nat>) {
    && |at| == |frames|
    && (forall k :: 0 <= k < |at| ==> at[k] < |jobs| && frames[k] == jobs[at[k]].action)
    && (forall k, m :: 0 <= k < m < |at| ==> at[k] < at[m])
    && (forall i: nat :: i < |jobs| ==> (i in at <==> GoesOut(jobs, i, conns)))
  }

  lemma SentFromStep(jobs: seq<Job>, conns: set<string>, frames: seq<ID>, at: seq<nat>)
    requires jobs != [] && SentFrom(jobs[..|jobs| - 1], conns, frames, at)
    ensures var n := |jobs| - 1;
            if GoesOut(jobs, n, conns) then SentFrom(jobs, conns, frames + [jobs[n].action], at + [n])
            else SentFrom(jobs, conns, frames, at)
  {
    var n := |jobs| - 1;
    var init := jobs[..n];
    forall i: nat | i < n ensures GoesOut(init, i, conns) <==> GoesOut(jobs, i, conns) {
      assert forall j :: 0 <= j <= i ==> init[j] == jobs[j];
    }
    hide GoesOut;
    assert forall k :: 0 <= k < |at| ==> at[k] < n;
  }

  lemma {:induction false} FramesAre(jobs: seq<Job>, conns: set<string>) returns (at: seq<nat>)
    ensures SentFrom(jobs, conns, Frames(jobs, conns), at)
  {
    hide GoesOut, Delivered, SentFrom;
    if jobs == [] {
      at := [];
      NothingSent(conns);
    } else {
      var n := |jobs| - 1;
      at := FramesAre(jobs[..n], conns);
      SentFromStep(jobs, conns, Frames(jobs[..n], conns), at);
      GoesOutIff(jobs, n, conns);
      at := if GoesOut(jobs, n, conns) then at + [n] else at;
      assert Frames(jobs[..n], conns) + [] == Frames(jobs[..n], conns);
    }
  }

  lemma NothingSent(conns: set<string>)
    ensures SentFrom([], conns, [], [])
  {
  }

  /** A connection is dropped exactly when an offer to it fails. */
  lemma ConnectedIff(jobs: seq<Job>, conns: set<string>, host: string)
    ensures host in Connected(jobs, conns) <==>
      host in conns && !exists j :: 0 <= j < |jobs| && jobs[j].host == host
                                    && jobs[j].hostExists && jobs[j].autoBlock && jobs[j].frameBuilt && !jobs[j].accepted
  {
    AliveIff(jobs, host);
    hide Alive;
  }

  /** With distinct actions: a row is marked exactly when it was pending and its frame went out; so
      the row of a job whose host is gone or has not opted in stays as it was. */
  lemma MarkedIff(rows: Rows, jobs: seq<Job>, conns: set<string>, i: nat)
    requires i < |jobs| && jobs[i].action in rows
    requires forall j, k :: 0 <= j < k < |jobs| ==> jobs[j].action != jobs[k].action
    ensures Marked(rows, Frames(jobs, conns)).Keys == rows.Keys
    ensures Marked(rows, Frames(jobs, conns))[jobs[i].action]
         == if rows[jobs[i].action] == Pending && GoesOut(jobs, i, conns) then Dispatched else rows[jobs[i].action]
  {
    var at := FramesAre(jobs, conns);
    var frames := Frames(jobs, conns);
    hide GoesOut, Frames;
    assert jobs[i].action in frames <==> i in at by {
      if jobs[i].action in frames {
        var k :| 0 <= k < |frames| && frames[k] == jobs[i].action;
        assert at[k] == i;
      }
      if i in at {
        var k :| 0 <= k < |at| && at[k] == i;
        assert frames[k] == jobs[i].action;
      }
    }
  }

  lemma MarkStep(rows: Rows, ids: seq<ID>, id: ID)
    ensures CompareAndSet(Marked(rows, ids), id, Pending, Dispatched) == Marked(rows, ids + [id])
  {
  }

  lemma NothingMarked(rows: Rows)
    ensures Marked(rows, []) == rows
  {
  }
}

module Dispatcher {
  import opened ActionModel
  import opened DispatchModel
  import opened Wrappers
  import ActionService

  class Dispatcher {
    const table: ActionService.ActionTable
    /** The hosts with an open connection. */
    var conns: set<string>
    /** Every frame handed to a connection, in order. */
    var sent: seq<ID>

    constructor (table: ActionService.ActionTable)
      ensures this.table == table && conns == {} && sent == []
    {
      this.table := table;
      conns, sent := {}, [];
    }

    /** The body of the tick's loop; `mark` says whether the task lives to mark the row. */
    method Offer(job: Job, mark: bool)
      modifies this, table
      ensures var offered := Ready(job) && job.host in old(conns);
              && sent == (if offered && job.accepted then old(sent) + [job.action] else old(sent))
              && conns == (if offered && !job.accepted then old(conns) - {job.host} else old(conns))
              && table.rows == if offered && job.accepted && mark
                               then CompareAndSet(old(table.rows), job.action, Pending, Dispatched)
                               else old(table.rows)
    {
      if !job.hostExists || !job.autoBlock {
        return;
      }
      if job.host !in conns {
        return;
      }
      if !job.frameBuilt {
        return;
      }
      if !job.accepted {
        conns := conns - {job.host};
        return;
      }
      sent := sent + [job.action];
      if mark {
        var marked := table.MarkDispatched(job.action);
      }
    }

    /** A tick over the snapshot `jobs`. The task may be cancelled between sending the frame of
        the last job it handles and marking that job: `stop` is how many jobs it starts on, and
        `lastMarked` whether the mark of the last one happens. */
    method Tick(jobs: seq<Job>, stop: nat, lastMarked: bool)
      requires stop <= |jobs|
      modifies this, table
      ensures sent == old(sent) + Frames(jobs[..stop], old(conns))
      ensures conns == Connected(jobs[..stop], old(conns))
      ensures table.rows == Marked(old(table.rows), Frames(MarkedJobs(jobs, stop, lastMarked), old(conns)))
    {
      NothingMarked(table.rows);
      assert Connected(jobs[..0], conns) == conns;
      assert Frames(jobs[..0], conns) == [];
      hide Frames, Connected, Marked, Ready, CompareAndSet;
      ghost var last := MarkedJobs(jobs, stop, lastMarked);
      assert last == if stop == 0 || lastMarked then jobs[..stop] else jobs[..stop - 1];
      hide MarkedJobs;
      for i := 0 to stop
        invariant sent == old(sent) + Frames(jobs[..i], old(conns))
        invariant conns == Connected(jobs[..i], old(conns))
        invariant table.rows == Marked(old(table.rows), Frames(if i < stop then jobs[..i] else last, old(conns)))
      {
        ghost var frames := Frames(jobs[..i], old(conns));
        TickStep(jobs, i, old(conns));
        MarkStep(old(table.rows), frames, jobs[i].action);
        assert (old(sent) + frames) + [jobs[i].action] == old(sent) + (frames + [jobs[i].action]);
        Offer(jobs[i], i + 1 < stop || lastMarked);
      }
    }
  }
}
