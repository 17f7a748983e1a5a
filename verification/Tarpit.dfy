/**
 The L2 tarpit (agent/pkg/deception/deception.go): a fixed table of connection slots
 threaded by an intrusive doubly linked list in most-recently-used order.

 `LruList` is the abstract table: a sequence of live connections, most recently used first.
 `Deception.Tarpit` is the concrete one, and refines it.
 */
module LruList {
  import opened Counting
  import opened Numbers
  import opened Sequences
  import opened Wrappers

  const ENTRY_SIZE := 256
  const MAX_BYTES := 4 * 1024 * 1024
  const MAX_ENTRIES := MAX_BYTES / ENTRY_SIZE

  type Cookie = seq<bv8>

  datatype Entry = Entry(connID: nat, subject: uint32, createdAt: int, lastSeen: int, cookie: Cookie, bytesHeld: nat)

  const FREE := Entry(0, 0, 0, 0, [], 0)

  /** A live connection together with the slot that stores it. */
  datatype Conn = Conn(slot: nat, entry: Entry)

  datatype Error = UnknownConnID | ExpiredConn | BadCookie

  /** The identifier encodes the slot, offset by one, above the 32-bit subject. */
  function ConnID(slot: nat, subject: uint32): nat {
    (slot + 1) * 0x1_0000_0000 + subject
  }

  ghost predicate WellFormed(l: seq<Conn>) {
    && (forall i :: 0 <= i < |l| ==> l[i].slot < MAX_ENTRIES && l[i].entry.connID == ConnID(l[i].slot, l[i].entry.subject))
    && Distinct(Slots(l))
  }

  function Slots(l: seq<Conn>): (s: seq<nat>)
    ensures |s| == |l|
    ensures forall i :: 0 <= i < |l| ==> s[i] == l[i].slot
  {
    seq(|l|, i requires 0 <= i < |l| => l[i].slot)
  }

  function RemoveAt<T>(l: seq<T>, k: nat): (r: seq<T>)
    requires k < |l|
    ensures |r| == |l| - 1
  {
    l[..k] + l[k + 1..]
  }

  // ---- The abstract operations ----

  predicate HasID(l: seq<Conn>, id: nat) { exists k :: 0 <= k < |l| && l[k].entry.connID == id }

  /** The position of the most recently used connection called `id`. */
  function Position(l: seq<Conn>, id: nat): (k: nat)
    requires HasID(l, id)
    ensures k < |l| && l[k].entry.connID == id
  {
    if l[0].entry.connID == id then 0 else
      assert HasID(l[1..], id) by {
        var k :| 0 <= k < |l| && l[k].entry.connID == id;
        assert l[1..][k - 1] == l[k];
      }
      1 + Position(l[1..], id)
  }

  /** The slot a new connection takes: the lowest free one, else that of the last connection. */
  ghost predicate Acquires(l: seq<Conn>, slot: nat) {
    if |l| < MAX_ENTRIES then
      slot < MAX_ENTRIES && slot !in Slots(l) && forall s: nat :: s < slot ==> s in Slots(l)
    else
      slot == l[|l| - 1].slot
  }

  /** The connections that stay when one more has to fit. */
  function Kept(l: seq<Conn>): seq<Conn> {
    if |l| < MAX_ENTRIES then l else l[..|l| - 1]
  }

  function NewConn(slot: nat, subject: uint32, now: int, cookie: Cookie): Conn {
    Conn(slot, Entry(ConnID(slot, subject), subject, now, now, cookie, ENTRY_SIZE))
  }

  function Accepted(l: seq<Conn>, slot: nat, subject: uint32, now: int, cookie: Cookie): seq<Conn> {
    [NewConn(slot, subject, now, cookie)] + Kept(l)
  }

  predicate Expired(c: Conn, now: int, ttl: int) { now - c.entry.createdAt > ttl }

  /** The answer to a cookie presented for `id`: the cookie is examined before the age. */
  function Verdict(l: seq<Conn>, id: nat, cookie: Cookie, now: int, ttl: int): Option<Error> {
    if !HasID(l, id) then Some(UnknownConnID)
    else
      var c := l[Position(l, id)];
      if c.entry.cookie != cookie then Some(BadCookie)
      else if Expired(c, now, ttl) then Some(ExpiredConn)
      else None
  }

  function Touched(l: seq<Conn>, k: nat, seenAt: int): seq<Conn>
    requires k < |l|
  {
    [l[k].(entry := l[k].entry.(lastSeen := seenAt))] + RemoveAt(l, k)
  }

  /** Clock readings: `now` decides expiry, `seenAt` is stored. */
  function Verified(l: seq<Conn>, id: nat, cookie: Cookie, now: int, seenAt: int, ttl: int): seq<Conn> {
    var v := Verdict(l, id, cookie, now, ttl);
    if v == None then Touched(l, Position(l, id), seenAt)
    else if v == Some(ExpiredConn) then RemoveAt(l, Position(l, id))
    else l
  }

  function Released(l: seq<Conn>, id: nat): seq<Conn> {
    if HasID(l, id) then RemoveAt(l, Position(l, id)) else l
  }

  /** The connections that have not expired, in the same order. */
  function Swept(l: seq<Conn>, now: int, ttl: int): (r: seq<Conn>)
    ensures |r| <= |l|
    ensures forall c :: c in r <==> c in l && !Expired(c, now, ttl)
  {
    if l == [] then [] else
      var rest := Swept(l[1..], now, ttl);
      if Expired(l[0], now, ttl) then rest else [l[0]] + rest
  }

  // ---- Laws of the list ----

  lemma SameID(l: seq<Conn>, i: nat, j: nat)
    requires WellFormed(l) && i < |l| && j < |l| && l[i].entry.connID == l[j].entry.connID
    ensures i == j
  {
    assert l[i].slot == l[j].slot;
    assert Slots(l)[i] == Slots(l)[j];
  }

  lemma RemoveLaws(l: seq<Conn>, k: nat)
    requires WellFormed(l) && k < |l|
    ensures Slots(RemoveAt(l, k)) == RemoveAt(Slots(l), k)
    ensures WellFormed(RemoveAt(l, k))
  {
  }

  lemma RemovedAt(s: seq<nat>, k: nat)
    requires Distinct(s) && k < |s|
    ensures Distinct(RemoveAt(s, k)) && |RemoveAt(s, k)| == |s| - 1
    ensures forall i {:trigger RemoveAt(s, k)[i]} :: 0 <= i < |s| - 1 ==> RemoveAt(s, k)[i] == s[if i < k then i else i + 1]
  {
  }

  lemma RemovedSlots(s: seq<nat>, k: nat)
    requires Distinct(s) && k < |s|
    ensures forall x :: x in RemoveAt(s, k) <==> x in s && x != s[k]
  {
    var r := RemoveAt(s, k);
    forall x | x in s && x != s[k] ensures x in r {
      var i :| 0 <= i < |s| && s[i] == x;
      assert r[if i < k then i else i - 1] == x;
    }
  }

  lemma RemovedIDs(l: seq<Conn>, k: nat, id: nat)
    requires WellFormed(l) && k < |l|
    ensures HasID(RemoveAt(l, k), id) <==> HasID(l, id) && id != l[k].entry.connID
  {
    var r := RemoveAt(l, k);
    if HasID(r, id) {
      var i :| 0 <= i < |r| && r[i].entry.connID == id;
      var j := if i < k then i else i + 1;
      assert l[j].entry.connID == id;
      if id == l[k].entry.connID { SameID(l, j, k); }
    }
    if HasID(l, id) && id != l[k].entry.connID {
      var i :| 0 <= i < |l| && l[i].entry.connID == id;
      assert r[if i < k then i else i - 1].entry.connID == id;
    }
  }

  lemma SweptStart(l: seq<Conn>, now: int, ttl: int)
    ensures l[..|l|] + Swept(l[|l|..], now, ttl) == l
  {
  }

  /** One step of a sweep that runs from the tail: positions above `k` are already swept. */
  lemma SweptStep(l: seq<Conn>, k: nat, now: int, ttl: int)
    requires k < |l|
    ensures var todo := l[..k + 1] + Swept(l[k + 1..], now, ttl);
            && k < |todo| && todo[k] == l[k] && todo[..k] == l[..k]
            && l[..k] + Swept(l[k..], now, ttl) == if Expired(l[k], now, ttl) then RemoveAt(todo, k) else todo
  {
    assert l[k..][1..] == l[k + 1..] && l[k..][0] == l[k];
  }

  // ---- What the operations do, in terms of the entries ----

  /** The identifier of the new connection, the clock reading in both its times, and its size. */
  lemma AcceptedIs(l: seq<Conn>, slot: nat, subject: uint32, now: int, cookie: Cookie)
    ensures var id := (slot + 1) * 0x1_0000_0000 + subject;
            Accepted(l, slot, subject, now, cookie)
            == [Conn(slot, Entry(id, subject, now, now, cookie, 256))] + if |l| < 16_384 then l else l[..|l| - 1]
  {
  }

  predicate Holds(l: seq<Conn>, s: nat) {
    exists i :: 0 <= i < |l| && l[i].slot == s
  }

  lemma SlotHeld(l: seq<Conn>, s: nat)
    ensures s in Slots(l) <==> Holds(l, s)
  {
    if s in Slots(l) {
      var i :| 0 <= i < |l| && Slots(l)[i] == s;
      assert l[i].slot == s;
    }
    if i :| 0 <= i < |l| && l[i].slot == s {
      assert Slots(l)[i] == s;
    }
  }

  /** While fewer than 16384 connections are live, the slot is free and every lower one is taken. */
  lemma AcquiresIff(l: seq<Conn>, slot: nat)
    requires |l| < 16_384
    ensures Acquires(l, slot) <==> slot < 16_384 && !Holds(l, slot) && forall s: nat :: s < slot ==> Holds(l, s)
  {
    SlotHeld(l, slot);
    forall s: nat | s < slot ensures s in Slots(l) <==> Holds(l, s) {
      SlotHeld(l, s);
    }
  }

  lemma PositionIs(l: seq<Conn>, id: nat, i: nat)
    requires WellFormed(l) && i < |l| && l[i].entry.connID == id
    ensures HasID(l, id) && Position(l, id) == i
  {
    SameID(l, i, Position(l, id));
  }

  /** A cookie is honoured only if it is the one stored for a live connection of that identifier
      which is not older than the TTL; and which error is given otherwise. */
  lemma VerdictIff(l: seq<Conn>, id: nat, cookie: Cookie, now: int, ttl: int)
    requires WellFormed(l)
    ensures var v := Verdict(l, id, cookie, now, ttl);
            && (v == None <==> exists i :: 0 <= i < |l| && l[i].entry.connID == id
                                            && l[i].entry.cookie == cookie && now - l[i].entry.createdAt <= ttl)
            && (v == Some(UnknownConnID) <==> forall i :: 0 <= i < |l| ==> l[i].entry.connID != id)
            && (v == Some(BadCookie) <==> exists i :: 0 <= i < |l| && l[i].entry.connID == id && l[i].entry.cookie != cookie)
            && (v == Some(ExpiredConn) <==> exists i :: 0 <= i < |l| && l[i].entry.connID == id
                                                         && l[i].entry.cookie == cookie && now - l[i].entry.createdAt > ttl)
  {
    forall i | 0 <= i < |l| && l[i].entry.connID == id ensures HasID(l, id) && Position(l, id) == i {
      PositionIs(l, id, i);
    }
    hide WellFormed;
  }

  /** A connection presented with a wrong cookie stays where it is, an expired one goes, and an
      honoured one moves to the front with the time of its use; the others keep their order. */
  lemma VerifiedIs(l: seq<Conn>, i: nat, cookie: Cookie, now: int, seenAt: int, ttl: int)
    requires WellFormed(l) && i < |l|
    ensures var c := l[i];
            Verified(l, c.entry.connID, cookie, now, seenAt, ttl) ==
            if cookie != c.entry.cookie then l
            else if now - c.entry.createdAt > ttl then l[..i] + l[i + 1..]
            else [c.(entry := c.entry.(lastSeen := seenAt))] + (l[..i] + l[i + 1..])
  {
    PositionIs(l, l[i].entry.connID, i);
  }

  lemma UnknownChangesNothing(l: seq<Conn>, id: nat, cookie: Cookie, now: int, seenAt: int, ttl: int)
    requires forall i :: 0 <= i < |l| ==> l[i].entry.connID != id
    ensures Verified(l, id, cookie, now, seenAt, ttl) == l == Released(l, id)
  {
  }

  /** After a release no connection has the identifier, and all others are there in their order. */
  lemma ReleasedIs(l: seq<Conn>, id: nat)
    requires WellFormed(l)
    ensures Released(l, id) == Filtered(l, (c: Conn) => c.entry.connID != id)
  {
    var keep := (c: Conn) => c.entry.connID != id;
    if HasID(l, id) {
      var k := Position(l, id);
      forall i | 0 <= i < |l| && i != k ensures keep(l[i]) {
        if l[i].entry.connID == id { SameID(l, i, k); }
      }
      assert l == l[..k] + ([l[k]] + l[k + 1..]);
      FilteredConcat(l[..k], [l[k]] + l[k + 1..], keep);
      FilteredConcat([l[k]], l[k + 1..], keep);
      FilteredAll(l[..k], keep);
      FilteredAll(l[k + 1..], keep);
      assert Filtered([l[k]], keep) == [];
    } else {
      FilteredAll(l, keep);
    }
  }

  /** A sweep keeps exactly the connections that are not older than the TTL, in their order. */
  lemma {:induction false} SweptIs(l: seq<Conn>, now: int, ttl: int)
    ensures Swept(l, now, ttl) == Filtered(l, (c: Conn) => now - c.entry.createdAt <= ttl)
  {
    if l != [] {
      SweptIs(l[1..], now, ttl);
    }
  }

  // ---- How the table stores the list ----

  /** Live slots hold their entries, and every other slot is cleared. */
  ghost predicate Stored(es: seq<Entry>, l: seq<Conn>) {
    && |es| == MAX_ENTRIES
    && (forall i :: 0 <= i < |l| ==> l[i].slot < MAX_ENTRIES && es[l[i].slot] == l[i].entry)
    && (forall s: nat :: s < MAX_ENTRIES && s !in Slots(l) ==> es[s] == FREE)
  }

  /** The reverse index holds exactly the live identifiers. */
  ghost predicate Indexed(ix: map<nat, nat>, l: seq<Conn>) {
    && (forall i :: 0 <= i < |l| ==> l[i].entry.connID in ix && ix[l[i].entry.connID] == l[i].slot)
    && (forall id :: id in ix ==> HasID(l, id))
  }

  lemma StoredAt(es: seq<Entry>, l: seq<Conn>, k: nat)
    requires WellFormed(l) && Stored(es, l) && k < |l|
    ensures l[k].slot < MAX_ENTRIES && es[l[k].slot] == l[k].entry
    ensures l[k].entry.connID == ConnID(l[k].slot, l[k].entry.subject) != 0
  {
  }

  lemma FreeSlot(es: seq<Entry>, l: seq<Conn>, s: nat)
    requires WellFormed(l) && Stored(es, l) && s < MAX_ENTRIES
    ensures es[s].connID == 0 <==> s !in Slots(l)
  {
  }

  lemma SlotsBounded(l: seq<Conn>)
    requires WellFormed(l)
    ensures Distinct(Slots(l)) && forall i :: 0 <= i < |l| ==> Slots(l)[i] < MAX_ENTRIES
  {
  }

  lemma Lookup(es: seq<Entry>, ix: map<nat, nat>, l: seq<Conn>, id: nat)
    requires WellFormed(l) && Stored(es, l) && Indexed(ix, l)
    ensures id in ix <==> HasID(l, id)
    ensures HasID(l, id) ==>
      var c := l[Position(l, id)];
      ix[id] == c.slot && c.slot < MAX_ENTRIES && es[c.slot] == c.entry
  {
  }

  lemma StoredRemove(es: seq<Entry>, l: seq<Conn>, k: nat)
    requires WellFormed(l) && Stored(es, l) && k < |l|
    ensures Stored(es[l[k].slot := FREE], RemoveAt(l, k))
  {
    RemoveLaws(l, k);
    RemovedSlots(Slots(l), k);
    var r := RemoveAt(l, k);
    forall i | 0 <= i < |r| ensures r[i].slot != l[k].slot {
      assert Slots(r)[i] in Slots(r);
    }
  }

  lemma IndexedRemove(ix: map<nat, nat>, l: seq<Conn>, k: nat)
    requires WellFormed(l) && Indexed(ix, l) && k < |l|
    ensures Indexed(ix - {l[k].entry.connID}, RemoveAt(l, k))
  {
    var r := RemoveAt(l, k);
    forall id ensures HasID(r, id) <==> HasID(l, id) && id != l[k].entry.connID {
      RemovedIDs(l, k, id);
    }
    forall i | 0 <= i < |r| ensures r[i] in l && r[i].entry.connID != l[k].entry.connID {
      assert HasID(r, r[i].entry.connID);
    }
  }

  /** `c` may join the list: its slot is free and its identifier is the one that names it. */
  ghost predicate Insertable(l: seq<Conn>, c: Conn) {
    c.slot < MAX_ENTRIES && c.slot !in Slots(l) && c.entry.connID == ConnID(c.slot, c.entry.subject)
  }

  lemma InsertLaws(l: seq<Conn>, c: Conn)
    requires WellFormed(l) && Insertable(l, c)
    ensures Slots([c] + l) == [c.slot] + Slots(l) && WellFormed([c] + l)
  {
  }

  lemma StoredInsert(es: seq<Entry>, l: seq<Conn>, c: Conn)
    requires WellFormed(l) && Insertable(l, c) && Stored(es, l)
    ensures Stored(es[c.slot := c.entry], [c] + l)
  {
    InsertLaws(l, c);
    forall i | 0 <= i < |l| ensures l[i].slot != c.slot {
      assert Slots(l)[i] in Slots(l);
    }
  }

  lemma IndexedInsert(ix: map<nat, nat>, l: seq<Conn>, c: Conn)
    requires WellFormed(l) && Insertable(l, c) && Indexed(ix, l)
    ensures Indexed(ix[c.entry.connID := c.slot], [c] + l)
  {
    forall i | 0 <= i < |l| ensures l[i].entry.connID != c.entry.connID {
      assert Slots(l)[i] in Slots(l);
    }
    hide WellFormed, Insertable, HasID;
    forall id | HasID(l, id) || id == c.entry.connID ensures HasID([c] + l, id) {
      HasIDAfter(l, c, id);
    }
  }

  lemma HasIDAfter(l: seq<Conn>, c: Conn, id: nat)
    ensures HasID([c] + l, id) <==> HasID(l, id) || id == c.entry.connID
  {
    var l' := [c] + l;
    assert l'[0] == c;
    if HasID(l, id) {
      var i :| 0 <= i < |l| && l[i].entry.connID == id;
      assert l'[i + 1] == l[i];
    }
  }

  /** Touching is removal followed by insertion of the refreshed connection. */
  lemma TouchLaws(es: seq<Entry>, ix: map<nat, nat>, l: seq<Conn>, k: nat, seenAt: int)
    requires WellFormed(l) && Stored(es, l) && Indexed(ix, l) && k < |l|
    ensures Slots(Touched(l, k, seenAt)) == [l[k].slot] + RemoveAt(Slots(l), k)
    ensures WellFormed(Touched(l, k, seenAt))
    ensures Stored(es[l[k].slot := l[k].entry.(lastSeen := seenAt)], Touched(l, k, seenAt))
    ensures Indexed(ix, Touched(l, k, seenAt))
  {
    var c := l[k].(entry := l[k].entry.(lastSeen := seenAt));
    RemoveLaws(l, k);
    RemovedSlots(Slots(l), k);
    StoredRemove(es, l, k);
    IndexedRemove(ix, l, k);
    InsertLaws(RemoveAt(l, k), c);
    StoredInsert(es[c.slot := FREE], RemoveAt(l, k), c);
    IndexedInsert(ix - {c.entry.connID}, RemoveAt(l, k), c);
    assert es[c.slot := FREE][c.slot := c.entry] == es[c.slot := c.entry];
    assert (ix - {c.entry.connID})[c.entry.connID := c.slot] == ix;
  }
}

module Deception {
  import opened Counting
  import opened LruList
  import opened Numbers
  import opened Wrappers

  const NO_LINK := 0xFFFF

  const DEFAULT_TTL := 300_000_000_000

  /** The link value that stands for position `i` of `order`. */
  ghost function LinkTo(order: seq<nat>, i: int): nat {
    if 0 <= i < |order| then order[i] else NO_LINK
  }

  class Tarpit {
    var entries: array<Entry>
    var lruPrev: array<nat>
    var lruNext: array<nat>
    var head: nat
    var tail: nat
    var connIndex: map<nat, nat>
    const ttl: int
    /** Stands for HMAC-SHA256 under the process key; no property of it is used. */
    const mac: (nat, uint32, int) -> Cookie

    /** The live connections, most recently used first. */
    ghost var Live: seq<Conn>

    /** The links thread exactly the slots of `order`, and `lruPrev` reverses `lruNext`. */
    ghost predicate Linked(order: seq<nat>)
      reads this`head, this`tail, this`lruPrev, this`lruNext, lruPrev, lruNext
    {
      && lruPrev != lruNext
      && lruPrev.Length == MAX_ENTRIES
      && lruNext.Length == MAX_ENTRIES
      && (forall i :: 0 <= i < |order| ==> order[i] < MAX_ENTRIES)
      && Distinct(order)
      && head == LinkTo(order, 0)
      && tail == LinkTo(order, |order| - 1)
      && (forall i {:trigger lruNext[order[i]]} :: 0 <= i < |order| ==> lruNext[order[i]] == LinkTo(order, i + 1))
      && (forall i {:trigger lruPrev[order[i]]} :: 0 <= i < |order| ==> lruPrev[order[i]] == LinkTo(order, i - 1))
    }

    /** As `Linked`, except that the links step over position `k`. */
    ghost predicate Bypassed(order: seq<nat>, k: nat)
      requires k < |order|
      reads this`head, this`tail, this`lruPrev, this`lruNext, lruPrev, lruNext
    {
      && lruPrev != lruNext
      && lruPrev.Length == MAX_ENTRIES
      && lruNext.Length == MAX_ENTRIES
      && (forall i :: 0 <= i < |order| ==> order[i] < MAX_ENTRIES)
      && Distinct(order)
      && head == LinkTo(order, if k == 0 then 1 else 0)
      && tail == LinkTo(order, if k == |order| - 1 then k - 1 else |order| - 1)
      && (forall i {:trigger lruNext[order[i]]} :: 0 <= i < |order| && i != k ==>
           lruNext[order[i]] == LinkTo(order, if i == k - 1 then k + 1 else i + 1))
      && (forall i {:trigger lruPrev[order[i]]} :: 0 <= i < |order| && i != k ==>
           lruPrev[order[i]] == LinkTo(order, if i == k + 1 then k - 1 else i - 1))
    }

    lemma BypassedIsLinked(order: seq<nat>, k: nat)
      requires k < |order| && Bypassed(order, k)
      ensures Linked(RemoveAt(order, k)) && order[k] !in RemoveAt(order, k)
    {
      var r := RemoveAt(order, k);
      RemovedAt(order, k);
      forall i: int ensures LinkTo(r, i) == LinkTo(order, if i < k then i else i + 1) {
      }
    }

    lemma LinksAt(order: seq<nat>, k: nat)
      requires Linked(order) && k < |order|
      ensures order[k] < MAX_ENTRIES == lruPrev.Length == lruNext.Length
      ensures lruPrev[order[k]] == LinkTo(order, k - 1) && lruNext[order[k]] == LinkTo(order, k + 1)
    {
    }

    lemma TailOf(order: seq<nat>)
      requires Linked(order)
      ensures tail == LinkTo(order, |order| - 1)
    {
    }

    ghost predicate Valid()
      reads this, entries, lruPrev, lruNext
    {
      && WellFormed(Live)
      && Linked(Slots(Live))
      && entries.Length == MAX_ENTRIES
      && Stored(entries[..], Live)
      && Indexed(connIndex, Live)
    }

    constructor (mac: (nat, uint32, int) -> Cookie, ttl: int)
      ensures Valid() && Live == []
      ensures this.ttl == (if ttl <= 0 then 300_000_000_000 else ttl) && this.mac == mac
      ensures fresh(entries) && fresh(lruPrev) && fresh(lruNext)
    {
      this.ttl := if ttl <= 0 then DEFAULT_TTL else ttl;
      this.mac := mac;
      entries := new Entry[MAX_ENTRIES](_ => FREE);
      lruPrev := new nat[MAX_ENTRIES](_ => 0);
      lruNext := new nat[MAX_ENTRIES](_ => 0);
      head, tail := NO_LINK, NO_LINK;
      connIndex := map[];
      Live := [];
    }

    // ---- List surgery ----

    /** `lruLinkHead` */
    method LinkHead(idx: nat, ghost order: seq<nat>)
      requires Linked(order) && idx < MAX_ENTRIES && idx !in order
      modifies this`head, this`tail, lruPrev, lruNext
      ensures Linked([idx] + order)
    {
      lruPrev[idx] := NO_LINK;
      lruNext[idx] := head;
      if head != NO_LINK {
        lruPrev[head] := idx;
      }
      head := idx;
      if tail == NO_LINK {
        tail := idx;
      }
    }

    /** `lruTouch` */
    method Touch(idx: nat, ghost order: seq<nat>, ghost k: nat)
      requires Linked(order) && k < |order| && idx == order[k]
      modifies this`head, this`tail, lruPrev, lruNext
      ensures Linked([idx] + RemoveAt(order, k))
    {
      if head == idx {
        assert k == 0 && [idx] + RemoveAt(order, k) == order;
        return;
      }
      var prev, next := lruPrev[idx], lruNext[idx];
      if prev != NO_LINK {
        lruNext[prev] := next;
      }
      if next != NO_LINK {
        lruPrev[next] := prev;
      }
      if tail == idx {
        tail := prev;
      }
      assert Bypassed(order, k);
      BypassedIsLinked(order, k);
      LinkHead(idx, RemoveAt(order, k));
    }

    /** The unlinking half of `release`. */
    method Unlink(idx: nat, ghost order: seq<nat>, ghost k: nat)
      requires Linked(order) && k < |order| && idx == order[k]
      modifies this`head, this`tail, lruPrev, lruNext
      ensures Linked(RemoveAt(order, k))
    {
      var prev, next := lruPrev[idx], lruNext[idx];
      if prev == NO_LINK {
        head := next;
      } else {
        lruNext[prev] := next;
      }
      if next == NO_LINK {
        tail := prev;
      } else {
        lruPrev[next] := prev;
      }
      lruPrev[idx] := NO_LINK;
      lruNext[idx] := NO_LINK;
      assert Bypassed(order, k);
      BypassedIsLinked(order, k);
    }

    /** `release` */
    method Clear(idx: nat, ghost k: nat)
      requires Valid() && k < |Live| && Live[k].slot == idx
      modifies this, entries, lruPrev, lruNext
      ensures Valid() && Live == RemoveAt(old(Live), k)
      ensures entries == old(entries) && lruPrev == old(lruPrev) && lruNext == old(lruNext)
    {
      hide WellFormed, Stored, Indexed, Linked;
      RemoveLaws(Live, k);
      StoredAt(entries[..], Live, k);
      StoredRemove(entries[..], Live, k);
      IndexedRemove(connIndex, Live, k);
      Unlink(idx, Slots(Live), k);
      var connID := entries[idx].connID;
      entries[idx] := FREE;
      connIndex := connIndex - {connID};
      Live := RemoveAt(Live, k);
    }

    // ---- Slots ----

    method AcquireSlot() returns (slot: nat)
      requires Valid()
      modifies this, entries, lruPrev, lruNext
      ensures Valid() && Live == Kept(old(Live))
      ensures Acquires(old(Live), slot) && slot < MAX_ENTRIES && slot !in Slots(Live)
      ensures entries == old(entries) && lruPrev == old(lruPrev) && lruNext == old(lruNext)
    {
      hide WellFormed, Stored, Indexed, Linked;
      SlotsBounded(Live);
      Pigeonhole(Slots(Live), MAX_ENTRIES);
      forall s: nat | s < MAX_ENTRIES ensures entries[s].connID == 0 <==> s !in Slots(Live) {
        FreeSlot(entries[..], Live, s);
      }
      for i := 0 to MAX_ENTRIES
        invariant forall s: nat :: s < i ==> s in Slots(Live)
      {
        if entries[i].connID == 0 {
          return i;
        }
      }
      TailOf(Slots(Live));
      slot := tail;
      Clear(slot, |Live| - 1);
    }

    // ---- The public operations ----

    method Accept(subject: uint32, now: int) returns (connID: nat, cookie: Cookie, ghost slot: nat)
      requires Valid()
      modifies this, entries, lruPrev, lruNext
      ensures Valid()
      ensures Acquires(old(Live), slot)
      ensures connID == ConnID(slot, subject) && cookie == mac(connID, subject, now)
      ensures Live == Accepted(old(Live), slot, subject, now, cookie)
    {
      hide WellFormed, Stored, Indexed, Linked, Acquires;
      var idx := AcquireSlot();
      slot := idx;
      connID := ConnID(idx, subject);
      cookie := mac(connID, subject, now);
      ghost var c := NewConn(idx, subject, now, cookie);
      InsertLaws(Live, c);
      StoredInsert(entries[..], Live, c);
      IndexedInsert(connIndex, Live, c);
      entries[idx] := Entry(connID, subject, now, now, cookie, ENTRY_SIZE);
      LinkHead(idx, Slots(Live));
      connIndex := connIndex[connID := idx];
      Live := [c] + Live;
    }

    method Verify(connID: nat, cookie: Cookie, now: int, seenAt: int) returns (err: Option<Error>)
      requires Valid()
      modifies this, entries, lruPrev, lruNext
      ensures Valid()
      ensures err == Verdict(old(Live), connID, cookie, now, ttl)
      ensures Live == Verified(old(Live), connID, cookie, now, seenAt, ttl)
    {
      hide WellFormed, Stored, Indexed, Linked;
      Lookup(entries[..], connIndex, Live, connID);
      if connID !in connIndex {
        return Some(UnknownConnID);
      }
      var idx := connIndex[connID];
      ghost var k := Position(Live, connID);
      if entries[idx].cookie != cookie {
        return Some(BadCookie);
      }
      if now - entries[idx].createdAt > ttl {
        Clear(idx, k);
        return Some(ExpiredConn);
      }
      TouchLaws(entries[..], connIndex, Live, k, seenAt);
      entries[idx] := entries[idx].(lastSeen := seenAt);
      Touch(idx, Slots(Live), k);
      Live := Touched(Live, k, seenAt);
      return None;
    }

    method Release(connID: nat) returns (err: Option<Error>)
      requires Valid()
      modifies this, entries, lruPrev, lruNext
      ensures Valid()
      ensures err == if HasID(old(Live), connID) then None else Some(UnknownConnID)
      ensures Live == Released(old(Live), connID)
    {
      hide WellFormed, Stored, Indexed, Linked;
      Lookup(entries[..], connIndex, Live, connID);
      if connID !in connIndex {
        return Some(UnknownConnID);
      }
      Clear(connIndex[connID], Position(Live, connID));
      return None;
    }

    method Sweep(now: int) returns (reaped: nat)
      requires Valid()
      modifies this, entries, lruPrev, lruNext
      ensures Valid()
      ensures Live == Swept(old(Live), now, ttl)
      ensures reaped == |old(Live)| - |Live|
    {
      hide WellFormed, Stored, Indexed, Linked, RemoveAt, Swept, Slots;
      reaped := 0;
      var curr := tail;
      ghost var l, k := Live, |Live|;
      TailOf(Slots(l));
      SlotsBounded(l);
      SweptStart(l, now, ttl);
      while curr != NO_LINK
        invariant Valid() && 0 <= k <= |l| && Live == l[..k] + Swept(l[k..], now, ttl)
        invariant curr == LinkTo(Slots(l), k - 1)
        invariant reaped == |l| - |Live|
        invariant entries == old(entries) && lruPrev == old(lruPrev) && lruNext == old(lruNext)
        decreases k
      {
        k := k - 1;
        SweptStep(l, k, now, ttl);
        assert LinkTo(Slots(Live), k) == curr && LinkTo(Slots(Live), k - 1) == LinkTo(Slots(l), k - 1) by {
          assert k > 0 ==> Live[k - 1] == l[k - 1];
        }
        LinksAt(Slots(Live), k);
        StoredAt(entries[..], Live, k);
        var next := lruPrev[curr];
        if now - entries[curr].createdAt > ttl {
          Clear(curr, k);
          reaped := reaped + 1;
        }
        curr := next;
      }
    }

    method Len() returns (n: nat)
      requires Valid()
      ensures n == |Live|
    {
      n := 0;
      var curr := head;
      while curr != NO_LINK
        invariant n <= |Live| && curr == LinkTo(Slots(Live), n)
        decreases |Live| - n
      {
        n := n + 1;
        curr := lruNext[curr];
      }
    }
  }
}
