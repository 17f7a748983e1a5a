/**
 The canonical signing string of a command (agent/internal/crypto/crypto.go:24-33 and
 server/src/zaqorincore_server/crypto.py:31-40).
 */
module Canonical {
  import opened Strings
  import opened Wrappers

  datatype Command = Command(id: string, kind: string, target: string, ttlSec: int, issuedAt: string)

  const DIGITS := "0123456789"

  function Digits(n: nat): (s: string)
    ensures s != ""
  {
    if n < 10 then [DIGITS[n]] else Digits(n / 10) + [DIGITS[n % 10]]
  }

  /** `strconv.Itoa`, and `str` of an int. */
  function Itoa(n: int): string {
    if n < 0 then "-" + Digits(-n) else Digits(n)
  }

  /** The agent's form. */
  function Canonical(c: Command): string {
    Join("|", [c.id, c.kind, c.target, Itoa(c.ttlSec), c.issuedAt])
  }

  /** The server's form. */
  function CanonicalForm(c: Command): string {
    c.id + "|" + c.kind + "|" + c.target + "|" + Itoa(c.ttlSec) + "|" + c.issuedAt
  }

  lemma FormsAgree(c: Command)
    ensures Canonical(c) == CanonicalForm(c)
  {
    var ttl := Itoa(c.ttlSec);
    hide Itoa;
    JoinStep(c.id, [c.kind, c.target, ttl, c.issuedAt]);
    JoinStep(c.kind, [c.target, ttl, c.issuedAt]);
    JoinStep(c.target, [ttl, c.issuedAt]);
    JoinStep(ttl, [c.issuedAt]);
    assert Join("|", [c.issuedAt]) == c.issuedAt;
    hide Join;
    assert [c.id, c.kind, c.target, ttl, c.issuedAt] == [c.id] + [c.kind, c.target, ttl, c.issuedAt];
    assert [c.kind, c.target, ttl, c.issuedAt] == [c.kind] + [c.target, ttl, c.issuedAt];
    assert [c.target, ttl, c.issuedAt] == [c.target] + [ttl, c.issuedAt];
    assert [ttl, c.issuedAt] == [ttl] + [c.issuedAt];
  }

  lemma JoinStep(first: string, rest: seq<string>)
    requires rest != []
    ensures Join("|", [first] + rest) == first + "|" + Join("|", rest)
  {
    assert ([first] + rest)[1..] == rest;
  }

  // ---- Reading the fields back ----

  function IntOf(s: string): Option<int> {
    if s != "" && s[0] == '-' then (if AllDigits(s[1..]) then Some(0 - (NatOf(s[1..]) as int)) else None)
    else if AllDigits(s) then Some(NatOf(s)) else None
  }

  lemma {:induction false} DigitsReadBack(n: nat)
    ensures AllDigits(Digits(n)) && NatOf(Digits(n)) == n
  {
    if n >= 10 {
      DigitsReadBack(n / 10);
      var s := Digits(n);
      assert s[..|s| - 1] == Digits(n / 10);
    } else {
      assert Digits(n)[..0] == "";
    }
  }

  lemma ItoaReadsBack(n: int)
    ensures IntOf(Itoa(n)) == Some(n) && Lacks(Itoa(n), '|')
  {
    var m := if n < 0 then -n else n;
    DigitsReadBack(m);
    assert IsDigit(Digits(m)[0]);
    assert ("-" + Digits(m))[1..] == Digits(m);
  }

  /** Identifier and kind from the front, issue time and lifetime from the back; what is left in
      the middle is the target. */
  function Decode(s: string): Option<Command> {
    match CutAt(s, '|')
    case None => None
    case Some(id) =>
      match CutAt(id.after, '|')
      case None => None
      case Some(kind) =>
        match CutLastAt(kind.after, '|')
        case None => None
        case Some(issued) =>
          match CutLastAt(issued.before, '|')
          case None => None
          case Some(ttl) =>
            match IntOf(ttl.after)
            case None => None
            case Some(n) => Some(Command(id.before, kind.before, ttl.before, n, issued.after))
  }

  /** The fields that must be free of the separator; the target need not be. */
  predicate Separable(c: Command) {
    Lacks(c.id, '|') && Lacks(c.kind, '|') && Lacks(c.issuedAt, '|')
  }

  lemma DecodesBack(c: Command)
    requires Separable(c)
    ensures Decode(Canonical(c)) == Some(c)
  {
    FormsAgree(c);
    ItoaReadsBack(c.ttlSec);
    hide CutAt, CutLastAt, Lacks, Itoa, IntOf, Canonical;
    var ttl := c.target + ("|" + Itoa(c.ttlSec));
    var issued := ttl + ("|" + c.issuedAt);
    var kind := c.kind + ("|" + issued);
    assert CanonicalForm(c) == c.id + ("|" + kind);
    CutLaw(c.id, '|', kind);
    CutLaw(c.kind, '|', issued);
    CutLastLaw(ttl, '|', c.issuedAt);
    CutLastLaw(c.target, '|', Itoa(c.ttlSec));
  }

  /** Two commands whose identifier, kind and issue time contain no separator have the same
      signing string only if they are the same command, whatever their targets contain. */
  lemma CanonicalInjective(c: Command, d: Command)
    requires Separable(c) && Separable(d) && Canonical(c) == Canonical(d)
    ensures c == d
  {
    DecodesBack(c);
    DecodesBack(d);
  }

  // ---- When the signing string belongs to one command only ----

  /** The pieces between the separators. */
  function Segments(s: string): (r: seq<string>)
    ensures r != []
    decreases |s|
  {
    CutConverse(s, '|');
    match CutAt(s, '|')
    case None => [s]
    case Some(cut) => [cut.before] + Segments(cut.after)
  }

  lemma SegmentsStep(a: string, b: string)
    requires Lacks(a, '|')
    ensures Segments(a) == [a] && Segments(a + ("|" + b)) == [a] + Segments(b)
  {
    CutNone(a, '|');
    CutLaw(a, '|', b);
    hide CutAt, Lacks;
  }

  lemma FirstBar(s: string) returns (before: string, after: string)
    requires !Lacks(s, '|')
    ensures Lacks(before, '|') && s == before + ("|" + after) && |after| < |s| && |before| < |s|
  {
    CutConverse(s, '|');
    before, after := CutAt(s, '|').value.before, CutAt(s, '|').value.after;
  }

  lemma {:induction false} SegmentsConcat(a: string, b: string)
    ensures Segments(a + ("|" + b)) == Segments(a) + Segments(b)
    decreases |a|
  {
    hide Segments, Lacks;
    if Lacks(a, '|') {
      SegmentsStep(a, b);
    } else {
      var x, y := FirstBar(a);
      SegmentsConcat(y, b);
      SegmentsStep(x, y);
      SegmentsStep(x, y + ("|" + b));
      Associative(x, "|" + y, "|" + b);
      Associative("|", y, "|" + b);
    }
  }

  lemma {:induction false} SegmentsJoinBack(s: string)
    ensures Join("|", Segments(s)) == s
    ensures |Segments(s)| == 1 <==> Lacks(s, '|')
    decreases |s|
  {
    hide Lacks;
    if Lacks(s, '|') {
      SegmentsStep(s, "");
    } else {
      var x, y := FirstBar(s);
      SegmentsStep(x, y);
      SegmentsJoinBack(y);
      hide Segments;
      JoinStep(x, Segments(y));
      Associative(x, "|", y);
    }
  }

  lemma CanonicalSegments(c: Command)
    ensures Segments(Canonical(c))
         == Segments(c.id) + (Segments(c.kind) + (Segments(c.target) + ([Itoa(c.ttlSec)] + Segments(c.issuedAt))))
  {
    FormsAgree(c);
    ItoaReadsBack(c.ttlSec);
    hide Segments, Itoa, Canonical, Lacks;
    var ttl := Itoa(c.ttlSec);
    var l3 := ttl + ("|" + c.issuedAt);
    var l2 := c.target + ("|" + l3);
    var l1 := c.kind + ("|" + l2);
    assert CanonicalForm(c) == c.id + ("|" + l1);
    hide CanonicalForm;
    SegmentsConcat(c.id, l1);
    SegmentsConcat(c.kind, l2);
    SegmentsConcat(c.target, l3);
    SegmentsStep(ttl, c.issuedAt);
  }

  /** `s` is what `Itoa` writes for some number. */
  predicate Decimal(s: string) { IntOf(s).Some? && Itoa(IntOf(s).value) == s }

  /** No separator before the lifetime, and no number between separators after it. */
  predicate Unambiguous(c: Command) {
    && Lacks(c.id, '|') && Lacks(c.kind, '|') && Lacks(c.target, '|')
    && forall i :: 0 <= i < |Segments(c.issuedAt)| - 1 ==> !Decimal(Segments(c.issuedAt)[i])
  }

  lemma OneSegmentEach(a: seq<string>, b: seq<string>, c: seq<string>, rest: seq<string>,
                       x: string, y: string, z: string, n: string, tail: seq<string>)
    requires a + (b + (c + ([n] + rest))) == [x, y, z] + tail && a != [] && b != [] && c != []
    requires |a| + |b| + |c| == 3
    ensures a == [x] && b == [y] && c == [z] && [n] + rest == tail
  {
    var all := [x, y, z] + tail;
    assert |a| == 1 && |b| == 1 && |c| == 1;
    assert a[0] == all[0] && b[0] == all[1] && c[0] == all[2];
    assert all[3..] == tail;
    assert (a + (b + (c + ([n] + rest))))[3..] == [n] + rest;
  }

  lemma LaterSegments(id: string, kind: string, target: string, ttl: string, issued: seq<string>)
    ensures var all := [id] + ([kind] + ([target] + ([ttl] + issued)));
            |all| == 4 + |issued| && forall q :: 4 <= q < |all| ==> all[q] == issued[q - 4]
  {
  }

  lemma SingleSegments(c: Command)
    requires Unambiguous(c)
    ensures Segments(Canonical(c)) == [c.id] + ([c.kind] + ([c.target] + ([Itoa(c.ttlSec)] + Segments(c.issuedAt))))
  {
    CanonicalSegments(c);
    SegmentsStep(c.id, "");
    SegmentsStep(c.kind, "");
    SegmentsStep(c.target, "");
    hide Segments, Itoa, Canonical;
  }

  lemma LifetimeAt(d: Command)
    ensures var q, all := |Segments(d.id)| + |Segments(d.kind)| + |Segments(d.target)|, Segments(Canonical(d));
            3 <= q < |all| - 1 && Decimal(all[q])
  {
    CanonicalSegments(d);
    ItoaReadsBack(d.ttlSec);
    hide Segments, Itoa, IntOf, Canonical;
  }

  /** A command with the same signing string has its lifetime at the same place. */
  lemma SameLifetime(c: Command, d: Command)
    requires Unambiguous(c) && Canonical(d) == Canonical(c)
    ensures |Segments(d.id)| + |Segments(d.kind)| + |Segments(d.target)| == 3
  {
    SingleSegments(c);
    LaterSegments(c.id, c.kind, c.target, Itoa(c.ttlSec), Segments(c.issuedAt));
    LifetimeAt(d);
    hide Segments, Itoa, Canonical, Decimal;
  }

  lemma JoinsBack(c: Command)
    ensures Join("|", Segments(c.id)) == c.id && Join("|", Segments(c.kind)) == c.kind
    ensures Join("|", Segments(c.target)) == c.target && Join("|", Segments(c.issuedAt)) == c.issuedAt
  {
    hide Join, Segments;
    SegmentsJoinBack(c.id);
    SegmentsJoinBack(c.kind);
    SegmentsJoinBack(c.target);
    SegmentsJoinBack(c.issuedAt);
  }

  lemma FieldsAgree(c: Command, d: Command)
    requires Segments(d.id) == Segments(c.id) && Segments(d.kind) == Segments(c.kind)
    requires Segments(d.target) == Segments(c.target) && Segments(d.issuedAt) == Segments(c.issuedAt)
    requires Itoa(d.ttlSec) == Itoa(c.ttlSec)
    ensures d == c
  {
    ItoaReadsBack(c.ttlSec);
    ItoaReadsBack(d.ttlSec);
    JoinsBack(c);
    JoinsBack(d);
    hide *;
  }

  lemma UnambiguousIsUnique(c: Command, d: Command)
    requires Unambiguous(c) && Canonical(d) == Canonical(c)
    ensures d == c
  {
    SameLifetime(c, d);
    SingleSegments(c);
    CanonicalSegments(d);
    SegmentsStep(c.id, "");
    SegmentsStep(c.kind, "");
    SegmentsStep(c.target, "");
    hide *;
    var tail := [Itoa(c.ttlSec)] + Segments(c.issuedAt);
    assert [c.id] + ([c.kind] + ([c.target] + tail)) == [c.id, c.kind, c.target] + tail;
    OneSegmentEach(Segments(d.id), Segments(d.kind), Segments(d.target), Segments(d.issuedAt),
                   c.id, c.kind, c.target, Itoa(d.ttlSec), tail);
    SameTail(Itoa(d.ttlSec), Segments(d.issuedAt), Itoa(c.ttlSec), Segments(c.issuedAt));
    FieldsAgree(c, d);
  }

  lemma SameTail(x: string, a: seq<string>, y: string, b: seq<string>)
    requires [x] + a == [y] + b
    ensures x == y && a == b
  {
    assert ([x] + a)[0] == x && ([y] + b)[0] == y;
    assert ([x] + a)[1..] == a && ([y] + b)[1..] == b;
  }

  // ---- The collisions ----

  ghost predicate Ambiguous(c: Command) { exists d :: d != c && Canonical(d) == Canonical(c) }

  /** Moving the separator between identifier and kind, between kind and target, or between target
      and lifetime. */
  lemma BarInIdIsAmbiguous(c: Command)
    requires !Lacks(c.id, '|')
    ensures Ambiguous(c)
  {
    var x, y := FirstBar(c.id);
    var d := c.(id := x, kind := y, target := c.kind + ("|" + c.target));
    FormsAgree(c);
    FormsAgree(d);
    hide Lacks, Itoa, Canonical;
    assert CanonicalForm(d) == CanonicalForm(c);
  }

  lemma BarInKindIsAmbiguous(c: Command)
    requires !Lacks(c.kind, '|')
    ensures Ambiguous(c)
  {
    var x, y := FirstBar(c.kind);
    var d := c.(kind := x, target := y + ("|" + c.target));
    FormsAgree(c);
    FormsAgree(d);
    hide Lacks, Itoa, Canonical;
    assert CanonicalForm(d) == CanonicalForm(c);
  }

  lemma BarInTargetIsAmbiguous(c: Command)
    requires !Lacks(c.target, '|')
    ensures Ambiguous(c)
  {
    var x, y := FirstBar(c.target);
    var d := c.(kind := c.kind + ("|" + x), target := y);
    FormsAgree(c);
    FormsAgree(d);
    hide Lacks, Itoa, Canonical;
    assert CanonicalForm(d) == CanonicalForm(c);
  }

  /** The text around a segment that a separator follows. */
  lemma {:induction false} AroundSegment(s: string, i: nat) returns (before: string, after: string)
    requires i < |Segments(s)| - 1
    ensures "|" + s == before + ("|" + (Segments(s)[i] + ("|" + after)))
    ensures |after| < |s|
    decreases i
  {
    SegmentsJoinBack(s);
    var x, y := FirstBar(s);
    SegmentsStep(x, y);
    hide *;
    if i == 0 {
      before, after := "", y;
      Associative("", "|", s);
    } else {
      before, after := AroundSegment(y, i - 1);
      Associative("|", x, "|" + y);
      Associative("|" + x, before, "|" + (Segments(s)[i] + ("|" + after)));
      before := "|" + x + before;
    }
  }

  /** The same text, with the middle shifted from one field to the next. */
  lemma Shifted(head: string, target: string, ttl: string, before: string, seg: string, after: string, issued: string)
    requires "|" + issued == before + ("|" + (seg + ("|" + after)))
    ensures head + target + "|" + ttl + "|" + issued == head + (target + "|" + ttl + before) + "|" + seg + "|" + after
  {
    var all := head + target + "|" + ttl;
    Associative(all, "|", issued);
    Associative(all, before, "|" + (seg + ("|" + after)));
    Associative(all + before, "|", seg + ("|" + after));
    Associative(all + before + "|", seg, "|" + after);
    Associative(all + before + "|" + seg, "|", after);
    Associative(head, target + "|" + ttl, before);
    Associative(head, target + "|", ttl);
    Associative(head, target, "|");
  }

  lemma NumberInIssueTimeIsAmbiguous(c: Command, i: nat)
    requires i < |Segments(c.issuedAt)| - 1 && Decimal(Segments(c.issuedAt)[i])
    ensures Ambiguous(c)
  {
    var before, after := AroundSegment(c.issuedAt, i);
    var seg, ttl := Segments(c.issuedAt)[i], Itoa(c.ttlSec);
    var d := c.(target := c.target + "|" + ttl + before, ttlSec := IntOf(seg).value, issuedAt := after);
    Shifted(c.id + "|" + c.kind + "|", c.target, ttl, before, seg, after, c.issuedAt);
    FormsAgree(c);
    FormsAgree(d);
    hide Segments, Itoa, IntOf, Canonical;
    assert CanonicalForm(d) == CanonicalForm(c);
    assert d.issuedAt != c.issuedAt;
  }

  /** The signing string of a command belongs to no other command exactly when no separator
      precedes its lifetime and no number stands between separators after it. */
  lemma AmbiguousIff(c: Command)
    ensures Ambiguous(c) <==> !Unambiguous(c)
  {
    if Ambiguous(c) {
      var d :| d != c && Canonical(d) == Canonical(c);
      if Unambiguous(c) { UnambiguousIsUnique(c, d); }
    } else {
      hide Ambiguous, Segments, Decimal, Lacks;
      if !Lacks(c.id, '|') { BarInIdIsAmbiguous(c); }
      if !Lacks(c.kind, '|') { BarInKindIsAmbiguous(c); }
      if !Lacks(c.target, '|') { BarInTargetIsAmbiguous(c); }
      forall i | 0 <= i < |Segments(c.issuedAt)| - 1 ensures !Decimal(Segments(c.issuedAt)[i]) {
        if Decimal(Segments(c.issuedAt)[i]) { NumberInIssueTimeIsAmbiguous(c, i); }
      }
    }
  }
}
