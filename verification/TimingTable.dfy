/**
 The per-subject record and the table of records (agent/pkg/timing/timing.go), proved against
 the full history of samples of each subject.
 */
module Timing {
  import opened Int64Arithmetic
  import opened Numbers
  import opened TimingModel
  import opened Wrappers
  import Probing

  const TABLE_SIZE := 4096

  /** The 32-bit cursor wraps at a multiple of the ring size. */
  lemma CursorWraps(n: nat)
    ensures (n % 0x1_0000_0000) % SAMPLE_CAP == n % SAMPLE_CAP
    ensures (n % 0x1_0000_0000 + 1) % 0x1_0000_0000 == (n + 1) % 0x1_0000_0000
  {
    var q, r := n / 0x1_0000_0000, n % 0x1_0000_0000;
    var d, e := r / SAMPLE_CAP, r % SAMPLE_CAP;
    assert n == SAMPLE_CAP * (0x800_0000 * q + d) + e;
    RemainderIs(n, 0x800_0000 * q + d, e);
  }

  lemma RemainderIs(n: nat, q: nat, r: nat)
    requires n == SAMPLE_CAP * q + r && r < SAMPLE_CAP
    ensures n % SAMPLE_CAP == r
  {
  }

  class PerSubject {
    const samples: array<int64>
    var cursor: uint32
    var count: nat
    var lastSeenNS: nat
    var mu100: int64
    var sigma100: int64
    var dirty: bool

    /** Every sample recorded so far, oldest first. */
    ghost var History: Samples

    ghost predicate Valid()
      reads this, samples
    {
      && samples.Length == SAMPLE_CAP
      && cursor == |History| % 0x1_0000_0000
      && count == |Ring(History)|
      && samples[..count] == Ring(History)
      && (History != [] && !dirty ==> mu100 == Mean100(Window(History)) && sigma100 == Deviation100(Window(History)))
    }

    constructor ()
      ensures Valid() && History == [] && fresh(samples)
    {
      samples := new int64[SAMPLE_CAP](_ => 0);
      cursor, count, lastSeenNS, mu100, sigma100, dirty := 0, 0, 0, 0, 0, false;
      History := [];
    }

    method Record(rttUS: int64, nowNS: nat)
      requires Valid()
      modifies this, samples
      ensures Valid() && History == old(History) + [rttUS] && lastSeenNS == nowNS
    {
      RingStep(History, rttUS);
      CursorWraps(|History|);
      hide Ring, Window, Rotate, Mean100, Deviation100;
      var slot := cursor % SAMPLE_CAP;
      assert slot == |History| % SAMPLE_CAP && (count < SAMPLE_CAP ==> slot == count) by {
        if |History| < SAMPLE_CAP { RemainderIs(|History|, 0, |History|); }
      }
      samples[slot] := rttUS;
      cursor := (cursor + 1) % 0x1_0000_0000;
      if count < SAMPLE_CAP {
        count := count + 1;
      }
      lastSeenNS := nowNS;
      dirty := true;
      History := History + [rttUS];
    }

    /** The first loop of `recompute` */
    method SumSamples() returns (sum: int64)
      requires Valid()
      ensures sum == Int64(Sum(Ring(History)))
    {
      ghost var ring := Ring(History);
      LoopStart(ring, 0);
      hide Ring, Window, Sum, Int64;
      sum := 0;
      for i := 0 to count
        invariant sum == Int64(Sum(ring[..i]))
      {
        SumStep(ring, i);
        sum := Int64(sum + samples[i]);
      }
    }

    /** The second loop of `recompute` */
    method SumSquares(mu: int) returns (sqsum: int64)
      requires Valid()
      ensures sqsum == Int64(Squares(Ring(History), mu))
    {
      ghost var ring := Ring(History);
      LoopStart(ring, mu);
      hide Ring, Window, Squares, Square, Int64;
      sqsum := 0;
      for i := 0 to count
        invariant sqsum == Int64(Squares(ring[..i], mu))
      {
        SquaresStep(ring, mu, i);
        sqsum := Int64(sqsum + Square(samples[i], mu));
      }
    }

    /** The loop of `ATS` */
    method CountLate(budget: int) returns (over: nat)
      requires Valid()
      ensures over == CountOver(Ring(History), budget)
    {
      ghost var ring := Ring(History);
      LoopStart(ring, budget);
      hide Ring, Window, CountOver, Int64;
      over := 0;
      for i := 0 to count
        invariant over == CountOver(ring[..i], budget)
      {
        OverStep(ring, budget, i);
        if Int64((samples[i] as int) * 100) > budget {
          over := over + 1;
        }
      }
    }

    method Recompute()
      requires Valid() && History != []
      modifies this`mu100, this`sigma100, this`dirty
      ensures Valid() && !dirty
    {
      hide Window, Sum, Squares, Int64, Quot, Sqrt, Score, TimingModel.Budget;
      RingStatistics(History);
      VarianceSmall(Ring(History));
      var sum := SumSamples();
      var mu := Quot(sum, count);
      var sqsum := SumSquares(mu);
      var variance := Quot(sqsum, count);
      var sigma := IntSqrt(variance);
      mu100 := Int64(mu * 100);
      sigma100 := Int64(sigma * 100);
      dirty := false;
    }

    method Budget() returns (budget: int)
      requires Valid()
      modifies this`mu100, this`sigma100, this`dirty
      ensures Valid()
      ensures budget == TimingModel.Budget(Window(History))
    {
      RingStatistics(History);
      if count < MIN_SAMPLES {
        return DEFAULT_BUDGET;
      }
      if dirty {
        Recompute();
      }
      if mu100 == 0 {
        return DEFAULT_BUDGET;
      }
      var cv100 := Quot(Int64(sigma100 * 100), mu100);
      if cv100 > MAX_CV_100 {
        return DEFAULT_BUDGET;
      }
      budget := Int64(mu100 + Quot(Int64(K_SIGMA_100 * sigma100), 100));
      if budget < DEFAULT_BUDGET * 100 {
        budget := DEFAULT_BUDGET * 100;
      }
      budget := budget / 100;
    }

    method ATS() returns (score: nat)
      requires Valid()
      modifies this`mu100, this`sigma100, this`dirty
      ensures Valid()
      ensures score == Score(Window(History)) <= 100
    {
      RingStatistics(History);
      hide Ring, Window, Int64, Quot, Sqrt, TimingModel.Budget, Mean, Deviation;
      if count == 0 {
        return 0;
      }
      if dirty {
        Recompute();
      }
      var budget := Int64(mu100 + Quot(Int64(K_SIGMA_100 * sigma100), 100));
      if budget <= 0 {
        return 0;
      }
      var over := CountLate(budget);
      PercentAtMost(over, count);
      var ratio := Percent(over, count);
      return if ratio > 100 then 100 else ratio;
    }
  }

  // ---- The table, as a map from subjects to their histories ----

  type Histories = map<nat, Samples>

  /** Looking a subject up starts tracking it, while there is room. */
  function Touched(m: Histories, subject: nat): Histories {
    if subject in m || |m| >= TABLE_SIZE then m else m[subject := []]
  }

  function Recorded(m: Histories, subject: nat, rttUS: int64): Histories {
    var m' := Touched(m, subject);
    if subject in m' then m'[subject := m'[subject] + [rttUS]] else m'
  }

  /** The budget of a subject, given that it was just looked up. */
  function BudgetOf(m: Histories, subject: nat): int {
    if subject in m then TimingModel.Budget(Window(m[subject])) else DEFAULT_BUDGET
  }

  function HistoryAt(slots: Probing.Slots, m: Histories, i: nat): Samples
    requires i < |slots|
  {
    if slots[i].Some? && slots[i].value in m then m[slots[i].value] else []
  }

  /** A lookup fails exactly when the subject is not tracked afterwards. */
  lemma GetLaws(slots: Probing.Slots, m: Histories, subject: nat)
    requires Probing.Valid(slots) && |slots| == TABLE_SIZE && m.Keys == Probing.Keys(slots)
    ensures Probing.Lookup(slots, subject) == None ==> subject !in Touched(m, subject) && Touched(m, subject) == m
    ensures forall i :: 0 <= i < TABLE_SIZE && slots[i] == Some(subject) ==> subject in m && Touched(m, subject) == m
  {
    Probing.EnteredKeys(slots, subject);
    Probing.HoldsIffKey(slots, subject);
    assert |m| == |m.Keys|;
  }

  /** What claiming the free slot that a lookup found does to the slots and the histories. */
  lemma ClaimLaws(slots: Probing.Slots, m: Histories, subject: nat, probe: nat)
    requires Probing.Valid(slots) && |slots| == TABLE_SIZE && m.Keys == Probing.Keys(slots)
    requires probe < TABLE_SIZE && Probing.Lookup(slots, subject) == Some(probe) && slots[probe] == None
    ensures subject !in m && Touched(m, subject) == m[subject := []]
    ensures Probing.Valid(slots[probe := Some(subject)])
    ensures Probing.Keys(slots[probe := Some(subject)]) == m.Keys + {subject}
    ensures forall i :: 0 <= i < TABLE_SIZE ==>
      HistoryAt(slots[probe := Some(subject)], m[subject := []], i) == HistoryAt(slots, m, i)
  {
    Probing.Claiming(slots, subject, probe);
    Probing.SlotKeys(slots);
    hide Probing.Valid, Probing.Lookup, Probing.Keys;
    assert |m| == |m.Keys|;
  }

  /** A new history for the subject in `slot` changes what that slot holds, and no other. */
  lemma RecordKeeps(slots: Probing.Slots, m: Histories, subject: nat, slot: nat, h: Samples)
    requires Probing.Valid(slots) && m.Keys == Probing.Keys(slots) && subject in m
    requires slot < |slots| && slots[slot] == Some(subject)
    ensures m[subject := h].Keys == Probing.Keys(slots) && HistoryAt(slots, m, slot) == m[subject]
    ensures forall i: nat :: i < |slots| ==>
      HistoryAt(slots, m[subject := h], i) == if i == slot then h else HistoryAt(slots, m, i)
  {
    forall j: nat | j < |slots| && slots[j] == Some(subject) ensures j == slot {
      Probing.SlotIsUnique(slots, slot, j);
    }
    hide Probing.Valid, Probing.Keys;
  }

  class Table {
    const tbl: seq<PerSubject>
    const keys: array<uint32>
    const used: array<bool>

    ghost var Slots: Probing.Slots
    ghost var Tracked: Histories

    ghost predicate Shaped() {
      && |tbl| == keys.Length == used.Length == TABLE_SIZE
      && (forall i, j :: 0 <= i < j < TABLE_SIZE ==> tbl[i] != tbl[j] && tbl[i].samples != tbl[j].samples)
    }

    /** The `used` and `keys` arrays spell out the slots. */
    ghost predicate Spelled()
      reads this`Slots, keys, used
    {
      && |Slots| == keys.Length == used.Length == TABLE_SIZE
      && forall i :: 0 <= i < TABLE_SIZE ==> Slots[i] == if used[i] then Some(keys[i]) else None
    }

    ghost predicate Sound()
      reads tbl, set i | 0 <= i < |tbl| :: tbl[i].samples
    {
      forall i :: 0 <= i < |tbl| ==> tbl[i].Valid()
    }

    /** Each record holds the history of the subject in its slot, and a free slot holds none. */
    ghost predicate Matched()
      reads this`Slots, this`Tracked, tbl
    {
      && |tbl| == |Slots|
      && Tracked.Keys == Probing.Keys(Slots)
      && forall i :: 0 <= i < |tbl| ==> tbl[i].History == HistoryAt(Slots, Tracked, i)
    }

    ghost predicate Valid()
      reads this, keys, used, tbl, set i | 0 <= i < |tbl| :: tbl[i].samples
    {
      Shaped() && Spelled() && Probing.Valid(Slots) && Sound() && Matched()
    }

    constructor ()
      ensures Valid() && Tracked == map[]
    {
      var recs: seq<PerSubject> := [];
      for n := 0 to TABLE_SIZE
        invariant |recs| == n
        invariant forall i :: 0 <= i < n ==> fresh(recs[i]) && fresh(recs[i].samples) && recs[i].Valid() && recs[i].History == []
        invariant forall i, j :: 0 <= i < j < n ==> recs[i] != recs[j] && recs[i].samples != recs[j].samples
      {
        var rec := new PerSubject();
        recs := recs + [rec];
      }
      tbl := recs;
      keys := new uint32[TABLE_SIZE](_ => 0);
      used := new bool[TABLE_SIZE](_ => false);
      Slots := seq(TABLE_SIZE, _ => None);
      Tracked := map[];
    }

    lemma ClaimKeeps(probe: nat, subject: uint32)
      requires Valid() && probe < TABLE_SIZE && !used[probe] && Probing.Lookup(Slots, subject) == Some(probe)
      ensures var slots, m := Slots[probe := Some(subject)], Tracked[subject := []];
              && m == Touched(Tracked, subject)
              && Probing.Valid(slots)
              && m.Keys == Probing.Keys(slots)
              && forall i :: 0 <= i < |tbl| ==> tbl[i].History == HistoryAt(slots, m, i)
    {
      hide Sound;
      ClaimLaws(Slots, Tracked, subject, probe);
    }

    /** The array assignments that claim a free slot. */
    method Occupy(probe: nat, subject: uint32)
      requires Spelled() && keys.Length == TABLE_SIZE && probe < TABLE_SIZE && !used[probe]
      modifies this`Slots, keys, used
      ensures Spelled() && Slots == old(Slots)[probe := Some(subject)]
    {
      keys[probe] := subject;
      used[probe] := true;
      Slots := Slots[probe := Some(subject)];
    }

    method Claim(probe: nat, subject: uint32)
      requires Valid() && probe < TABLE_SIZE && !used[probe] && Probing.Lookup(Slots, subject) == Some(probe)
      modifies this`Slots, this`Tracked, keys, used
      ensures Valid() && Tracked == Touched(old(Tracked), subject) && subject in Tracked
      ensures |Slots| == TABLE_SIZE && Slots[probe] == Some(subject)
    {
      ClaimKeeps(probe, subject);
      hide PerSubject.Valid, Probing.Valid, Probing.Keys, Probing.Lookup, HistoryAt, Sound, Touched, Shaped, Spelled;
      Occupy(probe, subject);
      Tracked := Tracked[subject := []];
    }

    method GetOrCreate(subject: uint32) returns (rec: PerSubject?, ghost slot: nat)
      requires Valid()
      modifies this`Slots, this`Tracked, keys, used
      ensures Valid() && Tracked == Touched(old(Tracked), subject)
      ensures rec == null <==> subject !in Tracked
      ensures rec != null ==> slot < TABLE_SIZE && rec == tbl[slot] && Slots[slot] == Some(subject)
    {
      GetLaws(Slots, Tracked, subject);
      hide PerSubject.Valid, Probing.Valid, Probing.Keys, Probing.Lookup, Probing.Probe, Sound, Matched, Touched;
      ghost var look := Probing.Lookup(Slots, subject);
      assert look == Probing.Find(Slots, subject, 0) by { Probing.LookupStarts(Slots, subject); }
      var idx := subject % TABLE_SIZE;
      for i := 0 to TABLE_SIZE
        invariant Valid() && Slots == old(Slots) && Tracked == old(Tracked)
        invariant look == Probing.Find(Slots, subject, i)
      {
        var probe := (idx + i) % TABLE_SIZE;
        Probing.ProbeAt(Slots, subject, i);
        if !used[probe] || keys[probe] == subject {
          if !used[probe] {
            Claim(probe, subject);
          }
          return tbl[probe], probe;
        }
      }
      return null, 0;
    }

    method BudgetFor(subject: uint32) returns (budget: int)
      requires Valid()
      modifies this`Slots, this`Tracked, keys, used, tbl
      ensures Valid() && Tracked == Touched(old(Tracked), subject)
      ensures budget == BudgetOf(Tracked, subject)
    {
      hide Spelled, Probing.Valid, Probing.Keys, TimingModel.Budget, Window, Score, Touched, PerSubject.Valid;
      var rec, slot := GetOrCreate(subject);
      if rec == null {
        return DEFAULT_BUDGET;
      }
      budget := rec.Budget();
    }

    /** The part of `Record` that appends to the record found. */
    method RecordIn(rec: PerSubject, ghost slot: nat, subject: uint32, rttUS: int64, nowNS: nat)
      requires Valid() && slot < |tbl| && rec == tbl[slot] && Slots[slot] == Some(subject) && subject in Tracked
      modifies this`Tracked, rec, rec.samples
      ensures Valid() && Tracked == old(Tracked)[subject := old(Tracked)[subject] + [rttUS]]
    {
      RecordKeeps(Slots, Tracked, subject, slot, Tracked[subject] + [rttUS]);
      hide Probing.Valid, Probing.Keys, HistoryAt;
      hide PerSubject.Valid;
      rec.Record(rttUS, nowNS);
      Tracked := Tracked[subject := Tracked[subject] + [rttUS]];
    }

    method Record(subject: uint32, rttUS: int64, nowNS: nat) returns (ok: bool)
      requires Valid()
      modifies this`Slots, this`Tracked, keys, used, tbl, set i | 0 <= i < |tbl| :: tbl[i].samples
      ensures Valid() && Tracked == Recorded(old(Tracked), subject, rttUS)
      ensures ok <==> subject in Tracked
    {
      hide Spelled, Probing.Valid, Probing.Keys, TimingModel.Budget, Window, Score, Touched, PerSubject.Valid;
      var rec, slot := GetOrCreate(subject);
      if rec == null {
        return false;
      }
      RecordIn(rec, slot, subject, rttUS, nowNS);
      return true;
    }

    /** `GetOrCreate` followed by `PerSubject.ATS`, as `TimingPolicy.ATS` does. */
    method ATSFor(subject: uint32) returns (score: nat)
      requires Valid()
      modifies this`Slots, this`Tracked, keys, used, tbl
      ensures Valid() && Tracked == Touched(old(Tracked), subject)
      ensures score == if subject in Tracked then Score(Window(Tracked[subject])) else 0
    {
      hide Spelled, Probing.Valid, Probing.Keys, TimingModel.Budget, Window, Score, Touched, PerSubject.Valid;
      var rec, slot := GetOrCreate(subject);
      if rec == null {
        return 0;
      }
      score := rec.ATS();
    }
  }
}
