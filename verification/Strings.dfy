/** Cutting and joining strings, and reading decimal numbers. */
module Strings {
  import opened Wrappers

  datatype Cut = Cut(before: string, after: string)

  predicate Lacks(s: string, c: char) { forall i :: 0 <= i < |s| ==> s[i] != c }

  /** The text before and after the first `c`. */
  function CutAt(s: string, c: char): Option<Cut> {
    if s == "" then None
    else if s[0] == c then Some(Cut("", s[1..]))
    else match CutAt(s[1..], c)
      case None => None
      case Some(cut) => Some(Cut([s[0]] + cut.before, cut.after))
  }

  lemma {:induction false} CutLaw(a: string, c: char, b: string)
    requires Lacks(a, c)
    ensures CutAt(a + ([c] + b), c) == Some(Cut(a, b))
    decreases |a|
  {
    var s := a + ([c] + b);
    if a == "" {
      assert s[1..] == b;
    } else {
      assert s[1..] == a[1..] + ([c] + b);
      CutLaw(a[1..], c, b);
      assert a == [a[0]] + a[1..];
    }
  }

  lemma {:induction false} CutNone(s: string, c: char)
    requires Lacks(s, c)
    ensures CutAt(s, c) == None
    decreases |s|
  {
    if s != "" {
      CutNone(s[1..], c);
    }
  }

  lemma {:induction false} CutConverse(s: string, c: char)
    ensures match CutAt(s, c)
            case None => Lacks(s, c)
            case Some(cut) => Lacks(cut.before, c) && s == cut.before + ([c] + cut.after)
    decreases |s|
  {
    if s != "" && s[0] != c {
      CutConverse(s[1..], c);
      assert s == [s[0]] + s[1..];
    }
  }

  /** The text before and after the last `c`. */
  function CutLastAt(s: string, c: char): Option<Cut> {
    if s == "" then None
    else if s[|s| - 1] == c then Some(Cut(s[..|s| - 1], ""))
    else match CutLastAt(s[..|s| - 1], c)
      case None => None
      case Some(cut) => Some(Cut(cut.before, cut.after + [s[|s| - 1]]))
  }

  lemma {:induction false} CutLastLaw(a: string, c: char, b: string)
    requires Lacks(b, c)
    ensures CutLastAt(a + ([c] + b), c) == Some(Cut(a, b))
    decreases |b|
  {
    var s := a + ([c] + b);
    if b == "" {
      assert s[..|s| - 1] == a;
    } else {
      assert s[..|s| - 1] == a + ([c] + b[..|b| - 1]);
      CutLastLaw(a, c, b[..|b| - 1]);
      assert b == b[..|b| - 1] + [b[|b| - 1]];
    }
  }

  /** The parts with `sep` between each two of them. */
  function Join(sep: string, parts: seq<string>): string {
    if parts == [] then "" else if |parts| == 1 then parts[0] else parts[0] + sep + Join(sep, parts[1..])
  }

  lemma Associative(a: string, b: string, c: string)
    ensures (a + b) + c == a + (b + c)
  {
  }

  // ---- Decimal numbers ----

  predicate IsDigit(ch: char) { '0' <= ch <= '9' }

  predicate AllDigits(s: string) { forall i :: 0 <= i < |s| ==> IsDigit(s[i]) }

  function NatOf(s: string): nat
    requires AllDigits(s)
  {
    if s == "" then 0 else
      assert IsDigit(s[|s| - 1]);
      NatOf(s[..|s| - 1]) * 10 + (s[|s| - 1] as int - '0' as int)
  }
}
