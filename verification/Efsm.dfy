/** The per-connection state table of the L7 machine (agent/pkg/efsm/efsm.go:184-203). */
module Efsm {
  import opened Numbers
  import opened Wrappers
  import Probing

  const TABLE_SIZE := 1024

  type ConnKey = uint32

  datatype ConnState = Init | HTTPRequest | HTTPHeaders | HTTPBody | WSFrame | Closed

  datatype ConnRecord = ConnRecord(key: ConnKey, used: bool, state: ConnState, bodyLen: nat)

  lemma WhenFull(slots: Probing.Slots, key: ConnKey)
    requires Probing.Valid(slots) && |slots| == TABLE_SIZE
    ensures Probing.Lookup(slots, key) == None <==> |Probing.Keys(slots)| == TABLE_SIZE && key !in Probing.Keys(slots)
    ensures Probing.Lookup(slots, key) == None ==> Probing.Entered(slots, key) == slots
    ensures Probing.Find(slots, key, TABLE_SIZE) == None
  {
    Probing.EnteredKeys(slots, key);
    Probing.FullIffCount(slots);
    Probing.EnteredIs(slots, key);
    Probing.FindEnds(slots, key);
    hide Probing.Valid, Probing.Keys, Probing.Lookup, Probing.Find, Probing.Entered;
  }

  /** The slot that step `i` of the loop looks at. */
  lemma LoopStep(slots: Probing.Slots, key: ConnKey, i: nat)
    requires |slots| == TABLE_SIZE && i < TABLE_SIZE
    ensures var probe := (key % TABLE_SIZE + i) % TABLE_SIZE;
            Probing.Find(slots, key, i) == if Probing.Usable(slots, key, probe) then Some(probe) else Probing.Find(slots, key, i + 1)
  {
    Probing.ProbeAt(slots, key, i);
    Probing.FindStep(slots, key, i);
  }

  class ConnTable {
    const tbl: array<ConnRecord>
    ghost var Slots: Probing.Slots

    /** The slots are what the records spell out, and obey the probing discipline. */
    ghost predicate Valid()
      reads this, tbl
    {
      && |Slots| == tbl.Length == TABLE_SIZE
      && (forall i :: 0 <= i < TABLE_SIZE ==> Slots[i] == if tbl[i].used then Some(tbl[i].key) else None)
      && Probing.Valid(Slots)
    }

    constructor ()
      ensures Valid() && fresh(tbl) && forall i :: 0 <= i < TABLE_SIZE ==> !tbl[i].used
    {
      tbl := new ConnRecord[TABLE_SIZE](_ => ConnRecord(0, false, Init, 0));
      Slots := seq(TABLE_SIZE, _ => None);
    }

    /** The part of `lookupOrCreate` that claims the record found, unless it is in use. */
    method Enter(probe: nat, key: ConnKey)
      requires Valid() && probe < TABLE_SIZE && Probing.Lookup(Slots, key) == Some(probe)
      requires !tbl[probe].used || tbl[probe].key == key
      modifies this`Slots, tbl
      ensures Valid() && Slots == Probing.Entered(old(Slots), key)
      ensures forall i :: 0 <= i < TABLE_SIZE ==>
        tbl[i] == if i == probe && !old(tbl[i].used) then old(tbl[i]).(key := key, used := true, state := Init) else old(tbl[i])
    {
      Probing.EnteredValid(Slots, key);
      Probing.EnteredIs(Slots, key);
      hide Probing.Valid, Probing.Lookup, Probing.Entered;
      Slots := Probing.Entered(Slots, key);
      if !tbl[probe].used {
        tbl[probe] := tbl[probe].(key := key, used := true, state := Init);
      }
    }

    /** `None` is the error for a full table; `Some(r)` is the address of record `r`. */
    method LookupOrCreate(key: ConnKey) returns (r: Option<nat>)
      requires Valid()
      modifies this`Slots, tbl
      ensures Valid()
      ensures r == Probing.Lookup(old(Slots), key)
      ensures Slots == Probing.Entered(old(Slots), key)
      ensures r == None <==> |Probing.Keys(old(Slots))| == 1024 && key !in Probing.Keys(old(Slots))
      ensures forall i :: 0 <= i < TABLE_SIZE ==>
        tbl[i] == if r == Some(i) && !old(tbl[i].used) then old(tbl[i]).(key := key, used := true, state := Init) else old(tbl[i])
    {
      hide Probing.Valid, Probing.Keys, Probing.Lookup, Probing.Find, Probing.Entered, Probing.Probe;
      Probing.LookupStarts(Slots, key);
      WhenFull(Slots, key);
      var idx := key % TABLE_SIZE;
      for i := 0 to TABLE_SIZE
        invariant Valid() && Slots == old(Slots) && forall j :: 0 <= j < TABLE_SIZE ==> tbl[j] == old(tbl[j])
        invariant Probing.Lookup(Slots, key) == Probing.Find(Slots, key, i)
      {
        var probe := (idx + i) % TABLE_SIZE;
        LoopStep(Slots, key, i);
        if !tbl[probe].used || tbl[probe].key == key {
          Enter(probe, key);
          return Some(probe);
        }
      }
      return None;
    }
  }
}
