/**
 Open addressing with linear probing and no deletion, as used by the timing table
 (agent/pkg/timing/timing.go:253-279) and the connection table
 (agent/pkg/efsm/efsm.go:184-203). A table is a sequence of slots, each free or holding a key.
 */
module Probing {
  import opened Wrappers

  type Slots = s: seq<Option<nat>> | s != [] witness [None]

  function Home(slots: Slots, key: nat): (h: nat)
    ensures h < |slots|
  {
    key % |slots|
  }

  /** The slot `d` steps after the home of `key`. */
  function Probe(slots: Slots, key: nat, d: nat): (i: nat)
    requires d < |slots|
    ensures i < |slots|
  {
    var i := Home(slots, key) + d;
    if i < |slots| then i else i - |slots|
  }

  /** How many steps after the home of `key` slot `i` comes. */
  function Offset(slots: Slots, key: nat, i: nat): (d: nat)
    requires i < |slots|
    ensures d < |slots| && Probe(slots, key, d) == i
    ensures forall e: nat :: e < |slots| && Probe(slots, key, e) == i ==> e == d
  {
    if Home(slots, key) <= i then i - Home(slots, key) else i + |slots| - Home(slots, key)
  }

  predicate Usable(slots: Slots, key: nat, i: nat)
    requires i < |slots|
  {
    slots[i] == None || slots[i] == Some(key)
  }

  /** What the probing loop finds from step `d` on: the first slot that is free or holds `key`. */
  function Find(slots: Slots, key: nat, d: nat): Option<nat>
    requires d <= |slots|
    decreases |slots| - d
  {
    if d == |slots| then None
    else if Usable(slots, key, Probe(slots, key, d)) then Some(Probe(slots, key, d))
    else Find(slots, key, d + 1)
  }

  function Lookup(slots: Slots, key: nat): Option<nat> { Find(slots, key, 0) }

  /** The table after `key` was looked up, and entered if that found a free slot. */
  function Entered(slots: Slots, key: nat): Slots {
    match Lookup(slots, key)
    case Some(i) => if i < |slots| then slots[i := Some(key)] else slots
    case None => slots
  }

  ghost predicate Holds(slots: Slots, key: nat) { Some(key) in slots }

  /** Each key sits in one slot, and every slot from its home up to there is occupied. */
  ghost predicate Valid(slots: Slots) {
    && (forall i, j :: 0 <= i < |slots| && 0 <= j < |slots| && slots[i].Some? && slots[i] == slots[j] ==> i == j)
    && (forall i, d: nat {:trigger Probe(slots, slots[i].value, d)} ::
          0 <= i < |slots| && slots[i].Some? && d < Offset(slots, slots[i].value, i) ==>
            slots[Probe(slots, slots[i].value, d)].Some?)
  }

  // ---- The loop finds the first usable slot ----

  ghost predicate NoneUsable(slots: Slots, key: nat, from: nat, to: nat)
    requires to <= |slots|
  {
    forall e: nat :: from <= e < to ==> !Usable(slots, key, Probe(slots, key, e))
  }

  lemma {:induction false} FindLaws(slots: Slots, key: nat, d: nat)
    requires d <= |slots|
    ensures match Find(slots, key, d)
            case None => NoneUsable(slots, key, d, |slots|)
            case Some(i) =>
              i < |slots| && Usable(slots, key, i) && d <= Offset(slots, key, i)
              && NoneUsable(slots, key, d, Offset(slots, key, i))
    decreases |slots| - d
  {
    if d < |slots| && !Usable(slots, key, Probe(slots, key, d)) {
      FindLaws(slots, key, d + 1);
    }
  }

  // ---- What the loop does ----

  lemma LookupStarts(slots: Slots, key: nat)
    ensures Lookup(slots, key) == Find(slots, key, 0)
  {
  }

  lemma ProbeAt(slots: Slots, key: nat, d: nat)
    requires d < |slots|
    ensures Probe(slots, key, d) == (key % |slots| + d) % |slots|
  {
    var n, x := |slots|, key % |slots| + d;
    if x >= n {
      assert x == n * 1 + (x - n);
    }
  }

  lemma FindStep(slots: Slots, key: nat, d: nat)
    requires d < |slots|
    ensures Find(slots, key, d)
         == if Usable(slots, key, Probe(slots, key, d)) then Some(Probe(slots, key, d)) else Find(slots, key, d + 1)
  {
  }

  lemma FindEnds(slots: Slots, key: nat)
    ensures Find(slots, key, |slots|) == None
  {
  }

  lemma EnteredIs(slots: Slots, key: nat)
    ensures match Lookup(slots, key)
            case None => Entered(slots, key) == slots
            case Some(i) => i < |slots| ==> Entered(slots, key) == slots[i := Some(key)]
  {
    hide Lookup;
  }

  // ---- A lookup is a lookup in a partial map ----

  /** A key that is in the table is found where it sits. */
  lemma FindsHeldKey(slots: Slots, key: nat, i: nat)
    requires Valid(slots) && i < |slots| && slots[i] == Some(key)
    ensures Lookup(slots, key) == Some(i)
  {
    FindLaws(slots, key, 0);
    var d := Offset(slots, key, i);
    assert Usable(slots, key, Probe(slots, key, d));
  }

  /** A free slot that a lookup finds was found for a key that the table does not hold. */
  lemma FindsFreeSlot(slots: Slots, key: nat, i: nat)
    requires Valid(slots) && i < |slots| && slots[i] == None && Lookup(slots, key) == Some(i)
    ensures !Holds(slots, key)
  {
    if Holds(slots, key) {
      var j :| 0 <= j < |slots| && slots[j] == Some(key);
      FindsHeldKey(slots, key, j);
    }
  }

  lemma SlotIsUnique(slots: Slots, i: nat, j: nat)
    requires Valid(slots) && i < |slots| && j < |slots| && slots[i].Some? && slots[i] == slots[j]
    ensures i == j
  {
  }

  lemma HoldsIffKey(slots: Slots, key: nat)
    ensures Holds(slots, key) <==> key in Keys(slots)
  {
    if key in Keys(slots) {
      var i :| 0 <= i < |slots| && slots[i] == Some(key);
    }
  }

  /** The lookup fails exactly when the table is full and does not hold the key. */
  lemma FailsIffFull(slots: Slots, key: nat)
    requires Valid(slots)
    ensures Lookup(slots, key) == None <==> None !in slots && !Holds(slots, key)
  {
    FindLaws(slots, key, 0);
    if Lookup(slots, key) == None {
      forall i | 0 <= i < |slots| ensures slots[i] != None && slots[i] != Some(key) {
        assert !Usable(slots, key, Probe(slots, key, Offset(slots, key, i)));
      }
    } else if Holds(slots, key) {
      var i :| 0 <= i < |slots| && slots[i] == Some(key);
      FindsHeldKey(slots, key, i);
    }
  }

  /** A key that is not in the table gets a free slot, and the table stays valid. */
  lemma EnteredValid(slots: Slots, key: nat)
    requires Valid(slots)
    ensures Valid(Entered(slots, key))
    ensures !Holds(slots, key) && Lookup(slots, key).Some? ==>
      Lookup(slots, key).value < |slots| && slots[Lookup(slots, key).value] == None
  {
    FindLaws(slots, key, 0);
    if Holds(slots, key) {
      var i :| 0 <= i < |slots| && slots[i] == Some(key);
      FindsHeldKey(slots, key, i);
      assert Entered(slots, key) == slots;
    } else if Lookup(slots, key).Some? {
      var slots' := Entered(slots, key);
      forall i, d: nat | 0 <= i < |slots'| && slots'[i].Some? && d < Offset(slots', slots'[i].value, i)
        ensures slots'[Probe(slots', slots'[i].value, d)].Some?
      {
        var j := Probe(slots, slots'[i].value, d);
        assert Home(slots', slots'[i].value) == Home(slots, slots'[i].value);
        if slots'[i] == Some(key) {
          assert !Usable(slots, key, j);
        } else {
          assert slots[Probe(slots, slots[i].value, d)].Some?;
        }
      }
    }
  }

  ghost function Keys(slots: Slots): set<nat> {
    set i | 0 <= i < |slots| && slots[i].Some? :: slots[i].value
  }

  ghost function KeysBelow(slots: Slots, n: nat): set<nat>
    requires n <= |slots|
  {
    set i | 0 <= i < n && slots[i].Some? :: slots[i].value
  }

  lemma KeysBelowStep(slots: Slots, n: nat)
    requires Valid(slots) && n < |slots|
    ensures match slots[n]
            case None => KeysBelow(slots, n + 1) == KeysBelow(slots, n)
            case Some(k) => KeysBelow(slots, n + 1) == KeysBelow(slots, n) + {k} && k !in KeysBelow(slots, n)
  {
  }

  lemma NoneBelowStep(slots: Slots, n: nat)
    requires n < |slots|
    ensures None in slots[..n + 1] <==> None in slots[..n] || slots[n] == None
  {
    assert slots[..n + 1] == slots[..n] + [slots[n]];
  }

  lemma {:induction false} KeysBelowCount(slots: Slots, n: nat)
    requires Valid(slots) && n <= |slots|
    ensures |KeysBelow(slots, n)| <= n
    ensures |KeysBelow(slots, n)| == n <==> None !in slots[..n]
  {
    if n > 0 {
      KeysBelowCount(slots, n - 1);
      KeysBelowStep(slots, n - 1);
      NoneBelowStep(slots, n - 1);
      hide KeysBelow, Valid;
    }
  }

  /** As many keys as slots: the table is full. */
  lemma FullIffCount(slots: Slots)
    requires Valid(slots)
    ensures |Keys(slots)| <= |slots|
    ensures |Keys(slots)| == |slots| <==> None !in slots
  {
    KeysBelowCount(slots, |slots|);
    assert KeysBelow(slots, |slots|) == Keys(slots);
    assert slots[..|slots|] == slots;
  }

  /** What one lookup does to the set of keys, and when it succeeds. */
  lemma EnteredKeys(slots: Slots, key: nat)
    requires Valid(slots)
    ensures var fits := key in Keys(slots) || |Keys(slots)| < |slots|;
            && (Lookup(slots, key).Some? <==> fits)
            && Keys(Entered(slots, key)) == if fits then Keys(slots) + {key} else Keys(slots)
  {
    FailsIffFull(slots, key);
    FullIffCount(slots);
    EnteredValid(slots, key);
    FindLaws(slots, key, 0);
    assert Holds(slots, key) <==> key in Keys(slots);
    if Lookup(slots, key).Some? {
      var i, slots' := Lookup(slots, key).value, Entered(slots, key);
      assert slots'[i] == Some(key);
      forall k | k in Keys(slots) ensures k in Keys(slots') {
        var j :| 0 <= j < |slots| && slots[j] == Some(k);
        assert slots'[j] == Some(k);
      }
    }
  }

  lemma EnteredExtends(slots: Slots, key: nat)
    ensures |Entered(slots, key)| == |slots|
    ensures forall i :: 0 <= i < |slots| && slots[i].Some? ==> Entered(slots, key)[i] == slots[i]
  {
    FindLaws(slots, key, 0);
  }

  lemma SlotIsOwn(slots: Slots, key: nat, i: nat)
    requires Valid(slots) && i < |slots| && slots[i] == Some(key)
    ensures Lookup(slots, key) == Some(i)
    ensures forall k :: k != key ==> Lookup(slots, k) != Some(i)
  {
    FindsHeldKey(slots, key, i);
    forall k | k != key ensures Lookup(slots, k) != Some(i) {
      FindLaws(slots, k, 0);
    }
  }

  /** Claiming the free slot that a lookup found. */
  lemma Claiming(slots: Slots, key: nat, i: nat)
    requires Valid(slots) && i < |slots| && Lookup(slots, key) == Some(i) && slots[i] == None
    ensures Valid(slots[i := Some(key)])
    ensures Keys(slots[i := Some(key)]) == Keys(slots) + {key}
    ensures key !in Keys(slots) && |Keys(slots)| < |slots|
  {
    EnteredKeys(slots, key);
    EnteredValid(slots, key);
    FindsFreeSlot(slots, key, i);
    HoldsIffKey(slots, key);
  }

  lemma SlotKeys(slots: Slots)
    ensures forall i :: 0 <= i < |slots| && slots[i].Some? ==> slots[i].value in Keys(slots)
  {
  }

  function EnteredAll(slots: Slots, keys: seq<nat>): Slots
    decreases |keys|
  {
    if keys == [] then slots else EnteredAll(Entered(slots, keys[0]), keys[1..])
  }

  /** Through any further lookups, a key keeps the slot it once got, and no other key gets it. */
  lemma {:induction false} SlotsAreStable(slots: Slots, keys: seq<nat>, key: nat, i: nat)
    requires Valid(slots) && i < |slots| && slots[i] == Some(key)
    ensures var later := EnteredAll(slots, keys);
            && Valid(later)
            && Lookup(later, key) == Some(i)
            && forall k :: k != key ==> Lookup(later, k) != Some(i)
    decreases |keys|
  {
    hide Valid, Lookup, Entered;
    if keys == [] {
      SlotIsOwn(slots, key, i);
    } else {
      EnteredValid(slots, keys[0]);
      EnteredExtends(slots, keys[0]);
      SlotsAreStable(Entered(slots, keys[0]), keys[1..], key, i);
    }
  }
}
