/** The command handler itself (agent/internal/response/response.go:145-257). */
module CommandHandler {
  import opened CommandModel
  import opened Wrappers

  /** `maxCommandClockSkew`, in nanoseconds. */
  const MAX_COMMAND_CLOCK_SKEW := 300_000_000_000

  datatype Command = Command(id: ID, kind: string, target: string, ttlSec: int, issuedAt: string, hmac: string)

  /** What the calls into other packages answer for one command: whether a secret is loaded, the
      parsed issue time, the clock, the signature check, the local policy, the outcome of the
      action, and the clock after it. */
  datatype World = World(hasSecret: bool, issued: Option<int>, now: int, verified: bool, allowed: bool,
                         applies: bool, appliedNow: int)

  datatype Status = Applied | Failed

  class Handler {
    var appliedAt: Memory
    var inFlight: set<ID>
    /** Stands for `strings.TrimSpace(s) == ""`. */
    const isBlank: string -> bool

    ghost predicate Valid()
      reads this
    {
      isBlank("") && "" !in appliedAt
    }

    constructor (isBlank: string -> bool)
      requires isBlank("")
      ensures Valid() && appliedAt == map[] && inFlight == {} && this.isBlank == isBlank
    {
      this.isBlank := isBlank;
      appliedAt, inFlight := map[], {};
    }

    method ReserveCommand(id: ID) returns (duplicate: bool)
      modifies this`inFlight
      ensures duplicate <==> id in appliedAt || id in old(inFlight)
      ensures inFlight == if duplicate then old(inFlight) else old(inFlight) + {id}
    {
      if id in appliedAt {
        return true;
      }
      if id in inFlight {
        return true;
      }
      inFlight := inFlight + {id};
      return false;
    }

    method ReleaseCommand(id: ID)
      modifies this`inFlight
      ensures inFlight == old(inFlight) - {id}
    {
      inFlight := inFlight - {id};
    }

    /** The search of `rememberApplied`, in whatever order the map is walked; "" stands for none. */
    method FindOldest() returns (oldestID: ID)
      requires Valid()
      ensures oldestID == "" <==> appliedAt == map[]
      ensures oldestID != "" ==> IsOldest(appliedAt, oldestID)
    {
      oldestID := "";
      var oldest := 0;
      var rest := appliedAt.Keys;
      while rest != {}
        invariant rest <= appliedAt.Keys
        invariant oldestID == "" ==> rest == appliedAt.Keys
        invariant oldestID != "" ==> oldestID in appliedAt && oldest == appliedAt[oldestID]
        invariant oldestID != "" ==> forall id :: id in appliedAt && id !in rest ==> oldest <= appliedAt[id]
        decreases rest
      {
        var id :| id in rest;
        if oldestID == "" || appliedAt[id] < oldest {
          oldestID, oldest := id, appliedAt[id];
        }
        rest := rest - {id};
      }
      assert oldestID == "" ==> appliedAt.Keys == {};
    }

    method RememberApplied(id: ID, now: int) returns (ghost victim: Option<ID>)
      requires Valid() && id != ""
      modifies this`appliedAt
      ensures Valid()
      ensures Evicts(old(appliedAt), victim)
      ensures appliedAt == WithEntry(old(appliedAt), id, now, victim)
    {
      victim := None;
      if |appliedAt| >= MAX_APPLIED_COMMAND_IDS {
        var oldestID := FindOldest();
        if oldestID != "" {
          victim := Some(oldestID);
          appliedAt := appliedAt - {oldestID};
        }
      }
      appliedAt := appliedAt[id := now];
    }

    /** The guards that precede the reservation. */
    predicate Admissible(cmd: Command, w: World) {
      && w.hasSecret
      && !isBlank(cmd.id) && !isBlank(cmd.kind)
      && w.issued.Some?
      && w.now - MAX_COMMAND_CLOCK_SKEW <= w.issued.value <= w.now + MAX_COMMAND_CLOCK_SKEW
      && w.verified
      && w.allowed
    }

    /** The handler's fields are those of the protocol state `a`. */
    ghost predicate Views(a: Agent)
      reads this
    {
      a.appliedAt == appliedAt && a.inFlight == inFlight
    }

    /** One call, as handler `p` of the state `a`, in which other handlers may have commands in
        flight but do nothing during the call. `executed` says whether the action was carried
        out; `steps` are the steps of the protocol that the call performs. */
    method Handle(cmd: Command, w: World, ghost a: Agent, ghost p: nat)
      returns (status: Status, executed: bool, ghost steps: seq<Step>)
      requires Valid() && Views(a) && p !in a.procs && a.clock < w.appliedNow
      modifies this
      ensures Valid() && inFlight == old(inFlight)
      ensures executed <==> Admissible(cmd, w) && cmd.id !in old(appliedAt) && cmd.id !in old(inFlight)
      ensures status == if Admissible(cmd, w) && (w.applies || !executed) then Applied else Failed
      ensures !(executed && w.applies) ==> appliedAt == old(appliedAt)
      ensures !Admissible(cmd, w) ==> steps == []
      ensures !w.hasSecret || isBlank(cmd.id) || isBlank(cmd.kind) || !w.verified || !w.allowed || w.issued == None
              || w.issued.value < w.now - 300_000_000_000 || w.issued.value > w.now + 300_000_000_000
              ==> status == Failed && !executed && appliedAt == old(appliedAt)
      ensures w.hasSecret && !isBlank(cmd.id) && !isBlank(cmd.kind) && w.verified && w.allowed && w.issued.Some?
              && w.now - 300_000_000_000 <= w.issued.value <= w.now + 300_000_000_000
              ==> (executed <==> cmd.id !in old(appliedAt) && cmd.id !in old(inFlight))
                  && (status == Failed <==> executed && !w.applies)
      ensures executed && w.applies ==> cmd.id in appliedAt && appliedAt[cmd.id] == w.appliedNow
      ensures Legal(a, steps) && Views(DoAll(a, steps)) && DoAll(a, steps).procs == a.procs
      ensures DoAll(a, steps).successes == if executed && w.applies then a.successes + [cmd.id] else a.successes
      ensures DoAll(a, steps).clock == if executed && w.applies then w.appliedNow else a.clock
    {
      steps := [];
      if !w.hasSecret {
        return Failed, false, steps;
      }
      if isBlank(cmd.id) || isBlank(cmd.kind) {
        return Failed, false, steps;
      }
      if w.issued.None? {
        return Failed, false, steps;
      }
      if w.issued.value < w.now - MAX_COMMAND_CLOCK_SKEW || w.issued.value > w.now + MAX_COMMAND_CLOCK_SKEW {
        return Failed, false, steps;
      }
      if !w.verified {
        return Failed, false, steps;
      }
      if !w.allowed {
        return Failed, false, steps;
      }
      var duplicate := ReserveCommand(cmd.id);
      if duplicate {
        DuplicateCall(a, p, cmd.id);
        return Applied, false, [Reserve(p, cmd.id)];
      }
      if !w.applies {
        ReleaseCommand(cmd.id);
        FailedCall(a, p, cmd.id);
        return Failed, true, [Reserve(p, cmd.id), Finish(p, false), Release(p)];
      }
      ghost var victim := RememberApplied(cmd.id, w.appliedNow);
      ReleaseCommand(cmd.id);
      AppliedCall(a, p, cmd.id, w.appliedNow, victim);
      return Applied, true, [Reserve(p, cmd.id), Finish(p, true), Remember(p, w.appliedNow, victim), Release(p)];
    }
  }

  // ---- The steps that one call amounts to ----

  lemma DuplicateCall(a: Agent, p: nat, id: ID)
    requires p !in a.procs && id != "" && Duplicate(a, id)
    ensures Legal(a, [Reserve(p, id)]) && DoAll(a, [Reserve(p, id)]) == a
  {
    LegalStep(a, Reserve(p, id), []);
  }

  lemma FailedCall(a: Agent, p: nat, id: ID)
    requires p !in a.procs && id != "" && !Duplicate(a, id)
    ensures var steps := [Reserve(p, id), Finish(p, false), Release(p)]; Legal(a, steps) && DoAll(a, steps) == a
  {
    var s0, s1, s2 := Reserve(p, id), Finish(p, false), Release(p);
    LegalStep(a, s0, [s1, s2]);
    LegalStep(Do(a, s0), s1, [s2]);
    LegalStep(Do(Do(a, s0), s1), s2, []);
    assert a.inFlight + {id} - {id} == a.inFlight;
  }

  lemma AppliedCall(a: Agent, p: nat, id: ID, now: int, victim: Option<ID>)
    requires p !in a.procs && id != "" && !Duplicate(a, id)
    requires a.clock < now && Evicts(a.appliedAt, victim)
    ensures var steps := [Reserve(p, id), Finish(p, true), Remember(p, now, victim), Release(p)];
            && Legal(a, steps)
            && DoAll(a, steps)
               == a.(appliedAt := WithEntry(a.appliedAt, id, now, victim), clock := now, successes := a.successes + [id])
  {
    var s0, s1, s2, s3 := Reserve(p, id), Finish(p, true), Remember(p, now, victim), Release(p);
    var a1 := Do(a, s0);
    var a2 := Do(a1, s1);
    var a3 := Do(a2, s2);
    LegalStep(a, s0, [s1, s2, s3]);
    LegalStep(a1, s1, [s2, s3]);
    LegalStep(a2, s2, [s3]);
    LegalStep(a3, s3, []);
    assert a.inFlight + {id} - {id} == a.inFlight;
  }
}
