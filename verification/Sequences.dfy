/** Filtering a sequence, which the list operations are compared with. */
module Sequences {

  /** The elements that satisfy `keep`, in the same order. */
  function Filtered<T>(s: seq<T>, keep: T -> bool): seq<T> {
    if s == [] then [] else if keep(s[0]) then [s[0]] + Filtered(s[1..], keep) else Filtered(s[1..], keep)
  }

  lemma {:induction false} FilteredConcat<T>(a: seq<T>, b: seq<T>, keep: T -> bool)
    ensures Filtered(a + b, keep) == Filtered(a, keep) + Filtered(b, keep)
  {
    if a == [] {
      assert a + b == b;
    } else {
      FilteredConcat(a[1..], b, keep);
      assert (a + b)[1..] == a[1..] + b && (a + b)[0] == a[0];
    }
  }

  lemma {:induction false} FilteredAll<T>(s: seq<T>, keep: T -> bool)
    requires forall i :: 0 <= i < |s| ==> keep(s[i])
    ensures Filtered(s, keep) == s
  {
    if s != [] {
      FilteredAll(s[1..], keep);
      assert s == [s[0]] + s[1..];
    }
  }
}
