/**
 Whole runs of the tarpit (agent/pkg/deception/deception.go), over the list that
 `Deception.Tarpit` refines.
 */
module TarpitRuns {
  import opened LruList
  import opened Numbers
  import opened Wrappers

  datatype Op =
    | Accept(subject: uint32, now: int)
    | Verify(id: nat, cookie: Cookie, now: int, seenAt: int)
    | Release(id: nat)
    | Sweep(now: int)

  datatype Config = Config(ttl: int, mac: (nat, uint32, int) -> Cookie)

  ghost predicate Step(cfg: Config, l: seq<Conn>, op: Op, l': seq<Conn>) {
    match op
    case Accept(subject, now) =>
      exists slot ::
        && Acquires(l, slot)
        && l' == Accepted(l, slot, subject, now, cfg.mac(ConnID(slot, subject), subject, now))
    case Verify(id, cookie, now, seenAt) => l' == Verified(l, id, cookie, now, seenAt, cfg.ttl)
    case Release(id) => l' == Released(l, id)
    case Sweep(now) => l' == Swept(l, now, cfg.ttl)
  }

  /** The successive lists of a run; the operations come from any callers, in lock order. */
  ghost predicate Run(cfg: Config, trace: seq<seq<Conn>>, ops: seq<Op>) {
    && |trace| == |ops| + 1
    && forall i :: 0 <= i < |ops| ==> Step(cfg, trace[i], ops[i], trace[i + 1])
  }

  // ---- Every operation keeps the list well formed and within the cap ----

  lemma AcceptKeeps(l: seq<Conn>, slot: nat, subject: uint32, now: int, cookie: Cookie)
    requires WellFormed(l) && |l| <= MAX_ENTRIES && Acquires(l, slot)
    ensures WellFormed(Accepted(l, slot, subject, now, cookie))
    ensures |Accepted(l, slot, subject, now, cookie)| == if |l| < MAX_ENTRIES then |l| + 1 else MAX_ENTRIES
  {
    var kept := Kept(l);
    assert Slots(kept) == Slots(l)[..|kept|];
    InsertLaws(kept, NewConn(slot, subject, now, cookie));
  }

  lemma {:induction false} SweptLaws(l: seq<Conn>, now: int, ttl: int)
    requires WellFormed(l)
    ensures WellFormed(Swept(l, now, ttl))
    ensures forall s :: s in Slots(Swept(l, now, ttl)) ==> s in Slots(l)
  {
    if l != [] {
      assert Slots(l[1..]) == Slots(l)[1..];
      SweptLaws(l[1..], now, ttl);
      var rest := Swept(l[1..], now, ttl);
      if !Expired(l[0], now, ttl) {
        InsertLaws(rest, l[0]);
      }
      assert forall s :: s in Slots(rest) ==> s in Slots(l[1..]);
    }
  }

  lemma StepKeeps(cfg: Config, l: seq<Conn>, op: Op, l': seq<Conn>)
    requires WellFormed(l) && |l| <= MAX_ENTRIES && Step(cfg, l, op, l')
    ensures WellFormed(l') && |l'| <= MAX_ENTRIES
  {
    match op
    case Accept(subject, now) =>
      var slot :| Acquires(l, slot) && l' == Accepted(l, slot, subject, now, cfg.mac(ConnID(slot, subject), subject, now));
      AcceptKeeps(l, slot, subject, now, cfg.mac(ConnID(slot, subject), subject, now));
    case Verify(id, _, _, seenAt) =>
      if HasID(l, id) {
        RemoveLaws(l, Position(l, id));
        TouchedWellFormed(l, Position(l, id), seenAt);
      }
    case Release(id) =>
      if HasID(l, id) {
        RemoveLaws(l, Position(l, id));
      }
    case Sweep(now) =>
      SweptLaws(l, now, cfg.ttl);
  }

  lemma TouchedWellFormed(l: seq<Conn>, k: nat, seenAt: int)
    requires WellFormed(l) && k < |l|
    ensures WellFormed(Touched(l, k, seenAt))
  {
    RemoveLaws(l, k);
    RemovedSlots(Slots(l), k);
    InsertLaws(RemoveAt(l, k), Touched(l, k, seenAt)[0]);
  }

  lemma {:induction false} RunKeeps(cfg: Config, trace: seq<seq<Conn>>, ops: seq<Op>, n: nat)
    requires Run(cfg, trace, ops) && trace[0] == [] && n <= |ops|
    ensures WellFormed(trace[n]) && |trace[n]| <= MAX_ENTRIES
  {
    if n > 0 {
      RunKeeps(cfg, trace, ops, n - 1);
      StepKeeps(cfg, trace[n - 1], ops[n - 1], trace[n]);
    }
  }

  // ---- With a clock that does not go back, the list is sorted by last use ----

  ghost predicate Sorted(l: seq<Conn>, now: int) {
    && (forall i :: 0 <= i < |l| ==> l[i].entry.lastSeen <= now)
    && (forall i, j :: 0 <= i < j < |l| ==> l[i].entry.lastSeen >= l[j].entry.lastSeen)
  }

  /** The clock after `op`, when it read `before` earlier. */
  function After(op: Op, before: int): int {
    match op
    case Accept(_, now) => now
    case Verify(_, _, _, seenAt) => seenAt
    case Release(_) => before
    case Sweep(now) => now
  }

  lemma {:induction false} SweptSorted(l: seq<Conn>, now: int, ttl: int, at: int)
    requires Sorted(l, at)
    ensures Sorted(Swept(l, now, ttl), at)
  {
    if l != [] {
      SweptSorted(l[1..], now, ttl, at);
      var rest := Swept(l[1..], now, ttl);
      forall i | 0 <= i < |rest| ensures l[0].entry.lastSeen >= rest[i].entry.lastSeen {
        assert rest[i] in l[1..];
      }
    }
  }

  lemma RemovalSorted(l: seq<Conn>, k: nat, at: int)
    requires Sorted(l, at) && k < |l|
    ensures Sorted(RemoveAt(l, k), at)
  {
  }

  lemma PushSorted(c: Conn, l: seq<Conn>, at: int)
    requires Sorted(l, at) && at <= c.entry.lastSeen
    ensures Sorted([c] + l, c.entry.lastSeen)
  {
  }

  lemma StepKeepsSorted(cfg: Config, l: seq<Conn>, op: Op, l': seq<Conn>, start: int)
    requires Step(cfg, l, op, l') && Sorted(l, start) && start <= After(op, start)
    ensures Sorted(l', After(op, start))
  {
    match op
    case Accept(_, _) =>
      PushSorted(l'[0], Kept(l), start);
    case Verify(id, _, _, _) =>
      if HasID(l, id) {
        var k := Position(l, id);
        RemovalSorted(l, k, start);
        PushSorted(Touched(l, k, op.seenAt)[0], RemoveAt(l, k), start);
      }
    case Release(id) =>
      if HasID(l, id) {
        RemovalSorted(l, Position(l, id), start);
      }
    case Sweep(now) =>
      SweptSorted(l, now, cfg.ttl, start);
  }

  /** The clock reading when `n` operations are done. */
  function ClockAt(ops: seq<Op>, start: int, n: nat): int
    requires n <= |ops|
  {
    if n == 0 then start else After(ops[n - 1], ClockAt(ops, start, n - 1))
  }

  ghost predicate Monotone(ops: seq<Op>, start: int) {
    forall n: nat :: n < |ops| ==> ClockAt(ops, start, n) <= ClockAt(ops, start, n + 1)
  }

  lemma {:induction false} RunSorted(cfg: Config, trace: seq<seq<Conn>>, ops: seq<Op>, start: int, n: nat)
    requires Run(cfg, trace, ops) && trace[0] == [] && Monotone(ops, start) && n <= |ops|
    ensures Sorted(trace[n], ClockAt(ops, start, n))
  {
    if n > 0 {
      RunSorted(cfg, trace, ops, start, n - 1);
      assert ClockAt(ops, start, n - 1) <= ClockAt(ops, start, (n - 1) + 1);
      StepKeepsSorted(cfg, trace[n - 1], ops[n - 1], trace[n], ClockAt(ops, start, n - 1));
    }
  }

  lemma AcceptStep(cfg: Config, l: seq<Conn>, op: Op, l': seq<Conn>)
    requires WellFormed(l) && |l| <= MAX_ENTRIES && op.Accept? && Step(cfg, l, op, l')
    ensures |l'| == (if |l| < MAX_ENTRIES then |l| + 1 else MAX_ENTRIES)
    ensures l'[1..] == (if |l| < MAX_ENTRIES then l else l[..|l| - 1])
  {
    hide WellFormed, Acquires;
  }

  lemma LastIsOldest(l: seq<Conn>, now: int)
    requires Sorted(l, now) && l != []
    ensures forall i :: 0 <= i < |l| ==> l[|l| - 1].entry.lastSeen <= l[i].entry.lastSeen
  {
  }

  lemma RunStep(cfg: Config, trace: seq<seq<Conn>>, ops: seq<Op>, n: nat)
    requires Run(cfg, trace, ops) && n < |ops|
    ensures |trace| == |ops| + 1 && Step(cfg, trace[n], ops[n], trace[n + 1])
  {
  }

  /** On any run whose clock never goes back, `Accept` evicts only when all slots are taken, and
      then the connection it evicts was used no later than any other. */
  lemma EvictsLeastRecentlyUsed(cfg: Config, trace: seq<seq<Conn>>, ops: seq<Op>, start: int, n: nat)
    requires Run(cfg, trace, ops) && trace[0] == [] && Monotone(ops, start)
    requires n < |ops| && ops[n].Accept?
    ensures var l, l' := trace[n], trace[n + 1];
            && |l'| == (if |l| < MAX_ENTRIES then |l| + 1 else MAX_ENTRIES)
            && l'[1..] == (if |l| < MAX_ENTRIES then l else l[..|l| - 1])
            && (|l| == MAX_ENTRIES ==> forall i :: 0 <= i < |l| ==> l[|l| - 1].entry.lastSeen <= l[i].entry.lastSeen)
  {
    hide *;
    RunStep(cfg, trace, ops, n);
    RunKeeps(cfg, trace, ops, n);
    RunSorted(cfg, trace, ops, start, n);
    AcceptStep(cfg, trace[n], ops[n], trace[n + 1]);
    if trace[n] != [] {
      LastIsOldest(trace[n], ClockAt(ops, start, n));
    }
  }

  // ---- How long a connection survives ----

  /** `op` neither releases `c` nor meets it after it has expired. */
  predicate Spares(cfg: Config, op: Op, c: Conn) {
    match op
    case Accept(_, _) => true
    case Verify(id, _, now, _) => id != c.entry.connID || !Expired(c, now, cfg.ttl)
    case Release(id) => id != c.entry.connID
    case Sweep(now) => !Expired(c, now, cfg.ttl)
  }

  /** The same connection, up to the time of its last use. */
  predicate SameConn(c: Conn, d: Conn) {
    && c.slot == d.slot
    && c.entry.connID == d.entry.connID
    && c.entry.subject == d.entry.subject
    && c.entry.createdAt == d.entry.createdAt
    && c.entry.cookie == d.entry.cookie
  }

  /** `c` is live at position `p` or nearer to the head. */
  ghost predicate LiveWithin(l: seq<Conn>, c: Conn, p: nat) {
    exists q: nat :: q <= p && q < |l| && SameConn(l[q], c)
  }

  lemma {:induction false} SweptKeeps(l: seq<Conn>, q: nat, now: int, ttl: int) returns (r: nat)
    requires q < |l| && !Expired(l[q], now, ttl)
    ensures r <= q && r < |Swept(l, now, ttl)| && Swept(l, now, ttl)[r] == l[q]
  {
    if q == 0 {
      r := 0;
    } else {
      r := SweptKeeps(l[1..], q - 1, now, ttl);
      if !Expired(l[0], now, ttl) {
        r := r + 1;
      }
    }
  }

  lemma RemovalKeeps(l: seq<Conn>, k: nat, q: nat, c: Conn, p: nat)
    requires k < |l| && q < |l| && k != q && q <= p
    requires SameConn(l[q], c)
    ensures LiveWithin(RemoveAt(l, k), c, p)
  {
    var r := if q < k then q else q - 1;
    assert RemoveAt(l, k)[r] == l[q];
  }

  lemma SurvivesStep(cfg: Config, l: seq<Conn>, op: Op, l': seq<Conn>, c: Conn, p: nat)
    requires Step(cfg, l, op, l') && LiveWithin(l, c, p) && p + 1 < MAX_ENTRIES && Spares(cfg, op, c)
    ensures LiveWithin(l', c, p + 1)
  {
    var q: nat :| q <= p && q < |l| && SameConn(l[q], c);
    match op
    case Accept(subject, now) =>
      assert l'[q + 1] == l[q];
    case Verify(id, cookie, now, seenAt) =>
      if HasID(l, id) {
        var k := Position(l, id);
        if k == q {
          if l' != l { assert l'[0].slot == c.slot; }
        } else {
          RemovalKeeps(l, k, q, c, p);
          var s: nat :| s <= p && s < |RemoveAt(l, k)| && SameConn(RemoveAt(l, k)[s], c);
          if Verdict(l, id, cookie, now, cfg.ttl) == None {
            assert l'[s + 1] == RemoveAt(l, k)[s];
          }
        }
      }
    case Release(id) =>
      if HasID(l, id) {
        RemovalKeeps(l, Position(l, id), q, c, p);
      }
    case Sweep(now) =>
      var r := SweptKeeps(l, q, now, cfg.ttl);
  }

  /** A connection at position `p` stays live through any operations that neither release it nor
      meet it expired, as long as there are fewer than `MAX_ENTRIES - p` of them. */
  lemma {:induction false} Survives(cfg: Config, trace: seq<seq<Conn>>, ops: seq<Op>, c: Conn, p: nat)
    requires Run(cfg, trace, ops) && LiveWithin(trace[0], c, p) && p + |ops| < MAX_ENTRIES
    requires forall i :: 0 <= i < |ops| ==> Spares(cfg, ops[i], c)
    ensures LiveWithin(trace[|ops|], c, p + |ops|)
  {
    if ops != [] {
      var n := |ops| - 1;
      Survives(cfg, trace[..n + 1], ops[..n], c, p);
      SurvivesStep(cfg, trace[n], ops[n], trace[n + 1], c, p + n);
    }
  }

  lemma HonouredNow(l: seq<Conn>, c: Conn, p: nat, now: int, ttl: int)
    requires WellFormed(l) && LiveWithin(l, c, p) && !Expired(c, now, ttl)
    ensures Verdict(l, c.entry.connID, c.entry.cookie, now, ttl) == None
  {
    var q: nat :| q <= p && q < |l| && SameConn(l[q], c);
    assert HasID(l, c.entry.connID);
    SameID(l, q, Position(l, c.entry.connID));
  }

  /** The round trip: what `Accept` hands out is honoured by `Verify` after up to
      `MAX_ENTRIES - 1` further operations that spare the connection. */
  lemma AcceptedCookieIsHonoured(cfg: Config, trace: seq<seq<Conn>>, ops: seq<Op>, slot: nat, m: nat, now: int)
    requires Run(cfg, trace, ops) && trace[0] == [] && m < |ops| && |ops| - m <= MAX_ENTRIES
    requires ops[m].Accept? && Acquires(trace[m], slot)
    requires var c := NewConn(slot, ops[m].subject, ops[m].now, cfg.mac(ConnID(slot, ops[m].subject), ops[m].subject, ops[m].now));
             && trace[m + 1] == Accepted(trace[m], slot, ops[m].subject, ops[m].now, c.entry.cookie)
             && (forall i :: m < i < |ops| ==> Spares(cfg, ops[i], c))
             && !Expired(c, now, cfg.ttl)
    ensures var id := ConnID(slot, ops[m].subject);
            Verdict(trace[|ops|], id, cfg.mac(id, ops[m].subject, ops[m].now), now, cfg.ttl) == None
  {
    var c := trace[m + 1][0];
    Survives(cfg, trace[m + 1..], ops[m + 1..], c, 0);
    var l := trace[|ops|];
    assert c.entry.connID == ConnID(slot, ops[m].subject);
    RunKeeps(cfg, trace, ops, |ops|);
    assert l == trace[m + 1..][|ops| - m - 1];
    HonouredNow(l, c, |ops|, now, cfg.ttl);
  }

  // ---- Only the cookie that was handed out is honoured ----

  /** Every live connection stores the cookie that was computed for it when it was accepted. */
  ghost predicate HandedOut(cfg: Config, l: seq<Conn>) {
    forall i :: 0 <= i < |l| ==>
      l[i].entry.cookie == cfg.mac(l[i].entry.connID, l[i].entry.subject, l[i].entry.createdAt)
  }

  lemma StepKeepsHandedOut(cfg: Config, l: seq<Conn>, op: Op, l': seq<Conn>)
    requires Step(cfg, l, op, l') && HandedOut(cfg, l)
    ensures HandedOut(cfg, l')
  {
    match op
    case Accept(_, _) =>
    case Verify(id, _, _, _) =>
      if HasID(l, id) {
        var k := Position(l, id);
        assert forall i :: 0 <= i < |RemoveAt(l, k)| ==> RemoveAt(l, k)[i] in l;
      }
    case Release(id) =>
      if HasID(l, id) {
        assert forall i :: 0 <= i < |l'| ==> l'[i] in l;
      }
    case Sweep(now) =>
      assert forall i :: 0 <= i < |l'| ==> l'[i] in l';
  }

  lemma {:induction false} RunHandedOut(cfg: Config, trace: seq<seq<Conn>>, ops: seq<Op>, n: nat)
    requires Run(cfg, trace, ops) && trace[0] == [] && n <= |ops|
    ensures HandedOut(cfg, trace[n])
  {
    hide Step, HandedOut;
    if n == 0 {
      NoneHandedOut(cfg);
    } else {
      RunHandedOut(cfg, trace, ops, n - 1);
      RunStep(cfg, trace, ops, n - 1);
      StepKeepsHandedOut(cfg, trace[n - 1], ops[n - 1], trace[n]);
    }
  }

  lemma NoneHandedOut(cfg: Config)
    ensures HandedOut(cfg, [])
  {
  }

  lemma VerifyStep(cfg: Config, l: seq<Conn>, id: nat, cookie: Cookie, now: int, seenAt: int, l': seq<Conn>)
    requires Step(cfg, l, Verify(id, cookie, now, seenAt), l')
    ensures l' == Verified(l, id, cookie, now, seenAt, cfg.ttl)
  {
  }

  /** On every run, a cookie other than the one handed out when connection `i` was accepted is
      refused, and the table stays as it was. */
  lemma OtherCookieIsRefused(cfg: Config, trace: seq<seq<Conn>>, ops: seq<Op>, n: nat, i: nat)
    requires Run(cfg, trace, ops) && trace[0] == [] && n < |ops| && ops[n].Verify? && i < |trace[n]|
    requires ops[n].id == trace[n][i].entry.connID
    requires var e := trace[n][i].entry; ops[n].cookie != cfg.mac(e.connID, e.subject, e.createdAt)
    ensures Verdict(trace[n], ops[n].id, ops[n].cookie, ops[n].now, cfg.ttl) == Some(BadCookie)
    ensures trace[n + 1] == trace[n]
  {
    RunKeeps(cfg, trace, ops, n);
    RunHandedOut(cfg, trace, ops, n);
    var op, c := ops[n], trace[n][i];
    VerifyStep(cfg, trace[n], op.id, op.cookie, op.now, op.seenAt, trace[n + 1]);
    hide Run, Step, WellFormed, Verdict, Verified;
    VerdictIff(trace[n], op.id, op.cookie, op.now, cfg.ttl);
    VerifiedIs(trace[n], i, op.cookie, op.now, op.seenAt, cfg.ttl);
    assert c.entry.cookie != op.cookie;
  }
}
