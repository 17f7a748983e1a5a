/** Any interleaving of calls on the timing table (agent/pkg/timing/timing.go:253-347). */
module TimingRuns {
  import opened Int64Arithmetic
  import opened TimingModel
  import opened Timing

  datatype Call =
    | RecordCall(subject: nat, rttUS: int64)
    | BudgetCall(subject: nat)
    | ScoreCall(subject: nat)

  /** The tracked histories after one call of `Timing.Table`. */
  function Apply(m: Histories, c: Call): Histories {
    if c.RecordCall? then Recorded(m, c.subject, c.rttUS) else Timing.Touched(m, c.subject)
  }

  function After(calls: seq<Call>): Histories {
    if calls == [] then map[] else Apply(After(calls[..|calls| - 1]), calls[|calls| - 1])
  }

  /** The samples recorded for one subject, oldest first. */
  function Own(calls: seq<Call>, subject: nat): Samples {
    if calls == [] then [] else
      var c := calls[|calls| - 1];
      var before := Own(calls[..|calls| - 1], subject);
      if c.RecordCall? && c.subject == subject then before + [c.rttUS] else before
  }

  predicate Asked(calls: seq<Call>, subject: nat) {
    calls != [] && (calls[|calls| - 1].subject == subject || Asked(calls[..|calls| - 1], subject))
  }

  lemma TouchedLaws(m: Histories, subject: nat)
    requires |m| <= TABLE_SIZE
    ensures var m' := Timing.Touched(m, subject);
            && |m| <= |m'| <= TABLE_SIZE
            && m'.Keys == (if subject in m || |m| == TABLE_SIZE then m.Keys else m.Keys + {subject})
            && (forall s :: s in m ==> m'[s] == m[s])
            && (subject in m' && subject !in m ==> m'[subject] == [])
  {
    if subject !in m {
      assert |m[subject := []].Keys| == |m.Keys + {subject}| == |m.Keys| + 1;
    }
  }

  /** A call changes the samples of its own subject only. */
  lemma AppliedToTouched(m: Histories, c: Call)
    ensures var m1, m' := Timing.Touched(m, c.subject), Apply(m, c);
            && m'.Keys == m1.Keys && |m'| == |m1|
            && (forall s :: s in m1 && s != c.subject ==> m'[s] == m1[s])
            && (c.subject in m1 ==>
                  m'[c.subject] == if c.RecordCall? then m1[c.subject] + [c.rttUS] else m1[c.subject])
  {
    hide Timing.Touched;
    assert Apply(m, c).Keys == Timing.Touched(m, c.subject).Keys;
    assert |Apply(m, c)| == |Apply(m, c).Keys|;
    assert |Timing.Touched(m, c.subject)| == |Timing.Touched(m, c.subject).Keys|;
  }

  lemma ApplyLaws(m: Histories, c: Call)
    requires |m| <= TABLE_SIZE
    ensures var m' := Apply(m, c);
            && |m| <= |m'| <= TABLE_SIZE
            && m'.Keys == (if c.subject in m || |m| == TABLE_SIZE then m.Keys else m.Keys + {c.subject})
            && (forall s :: s in m && s != c.subject ==> m'[s] == m[s])
            && (c.subject in m' ==>
                  var prior: Samples := if c.subject in m then m[c.subject] else [];
                  m'[c.subject] == if c.RecordCall? then prior + [c.rttUS] else prior)
  {
    hide Timing.Touched, Apply;
    TouchedLaws(m, c.subject);
    AppliedToTouched(m, c);
  }

  /** A tracked subject has exactly its own samples; one that is not tracked although it was
      asked for found the table full. */
  lemma {:induction false} TrackedAfter(calls: seq<Call>, subject: nat)
    ensures |After(calls)| <= TABLE_SIZE
    ensures subject in After(calls) ==> After(calls)[subject] == Own(calls, subject)
    ensures subject !in After(calls) && Asked(calls, subject) ==> |After(calls)| == TABLE_SIZE
    ensures !Asked(calls, subject) ==> Own(calls, subject) == []
  {
    if calls != [] {
      TrackedAfter(calls[..|calls| - 1], subject);
      ApplyLaws(After(calls[..|calls| - 1]), calls[|calls| - 1]);
      hide Apply;
    }
  }

  /** After any calls, whatever their subjects: the budget of a subject is that of the last 32
      samples recorded for it, and the default if it never got a slot; likewise its score. */
  lemma BudgetAfterRun(calls: seq<Call>, subject: nat)
    ensures var m := Timing.Touched(After(calls), subject);
            && (subject in m ==> BudgetOf(m, subject) == TimingModel.Budget(Window(Own(calls, subject))))
            && (subject in m ==> Score(Window(m[subject])) == Score(Window(Own(calls, subject))))
            && (subject !in m ==> BudgetOf(m, subject) == 250_000)
            && (subject !in m <==> |After(calls)| == 4096 && subject !in After(calls))
  {
    TrackedAfter(calls, subject);
    TouchedLaws(After(calls), subject);
    hide TimingModel.Budget, Score, Window;
  }

  lemma AfterMore(calls: seq<Call>, more: seq<Call>, c: Call)
    ensures After(calls + (more + [c])) == Apply(After(calls + more), c)
  {
    hide Apply;
    assert calls + (more + [c]) == (calls + more) + [c];
    assert ((calls + more) + [c])[..|calls + more|] == calls + more;
  }

  lemma {:induction false} OthersKeepSamples(calls: seq<Call>, more: seq<Call>, subject: nat)
    requires subject in After(calls) && forall i :: 0 <= i < |more| ==> more[i].subject != subject
    ensures subject in After(calls + more) && After(calls + more)[subject] == After(calls)[subject]
  {
    hide Apply, After;
    if more == [] {
      assert calls + more == calls;
    } else {
      var some, c := more[..|more| - 1], more[|more| - 1];
      assert more == some + [c];
      OthersKeepSamples(calls, some, subject);
      AfterMore(calls, some, c);
      TrackedAfter(calls + some, subject);
      ApplyLaws(After(calls + some), c);
    }
  }

  /** Calls for other subjects leave the budget of a tracked subject alone. */
  lemma OthersDoNotInterfere(calls: seq<Call>, more: seq<Call>, subject: nat)
    requires subject in After(calls) && forall i :: 0 <= i < |more| ==> more[i].subject != subject
    ensures subject in After(calls + more) && BudgetOf(After(calls + more), subject) == BudgetOf(After(calls), subject)
  {
    hide TimingModel.Budget, Window, After;
    OthersKeepSamples(calls, more, subject);
  }
}
