/**
 Levenshtein distance and typosquat matching
 (server/src/zaqorincore_server/detection/brand_protection.py).

 The reference definition is operational: a script is a sequence of single-character
 insertions, deletions and replacements at arbitrary positions, and the distance between
 two strings is the length of the shortest script that turns one into the other. The
 recurrence `Lev` and the two-row table of `Levenshtein` are proved to compute it.
 */
module EditDistance {
  import opened Numbers
  import opened Wrappers

  datatype Edit =
    | Insert(pos: nat, ch: char)
    | Delete(pos: nat)
    | Replace(pos: nat, ch: char)

  ghost predicate Enabled(e: Edit, s: string) {
    if e.Insert? then e.pos <= |s| else e.pos < |s|
  }

  ghost function ApplyEdit(e: Edit, s: string): string
    requires Enabled(e, s)
  {
    match e
    case Insert(p, c) => s[..p] + [c] + s[p..]
    case Delete(p) => s[..p] + s[p + 1..]
    case Replace(p, c) => s[..p] + [c] + s[p + 1..]
  }

  /** The script turns `a` into `b`, one edit at a time. */
  ghost predicate Transforms(script: seq<Edit>, a: string, b: string) {
    if script == [] then a == b
    else Enabled(script[0], a) && Transforms(script[1..], ApplyEdit(script[0], a), b)
  }

  function Differ(x: char, y: char): nat { if x == y then 0 else 1 }

  function Init(s: string): string
    requires s != []
  {
    s[..|s| - 1]
  }

  function Last(s: string): char
    requires s != []
  {
    s[|s| - 1]
  }

  /** The Wagner-Fischer recurrence on prefixes. */
  function Lev(a: string, b: string): nat
    decreases |a| + |b|
  {
    if a == [] then |b|
    else if b == [] then |a|
    else Min(Min(Lev(a, Init(b)) + 1, Lev(Init(a), b) + 1),
             Lev(Init(a), Init(b)) + Differ(Last(a), Last(b)))
  }

  lemma LevUnfold(p: string, q: string)
    requires p != [] && q != []
    ensures Lev(p, q) == Min(Min(Lev(p, Init(q)) + 1, Lev(Init(p), q) + 1), Lev(Init(p), Init(q)) + Differ(Last(p), Last(q)))
  {
    hide Init, Last, Min, Differ;
  }

  // ---- Metric laws ----

  lemma {:induction false} LevBounds(a: string, b: string)
    ensures Max(|a|, |b|) - Min(|a|, |b|) <= Lev(a, b) <= Max(|a|, |b|)
    decreases |a| + |b|
  {
    if a != [] && b != [] {
      LevBounds(a, Init(b));
      LevBounds(Init(a), b);
      LevBounds(Init(a), Init(b));
    }
  }

  lemma {:induction false} LevSymmetric(a: string, b: string)
    ensures Lev(a, b) == Lev(b, a)
    decreases |a| + |b|
  {
    if a != [] && b != [] {
      LevSymmetric(a, Init(b));
      LevSymmetric(Init(a), b);
      LevSymmetric(Init(a), Init(b));
    }
  }

  lemma {:induction false} LevZero(a: string, b: string)
    ensures Lev(a, b) == 0 <==> a == b
    decreases |a| + |b|
  {
    if a != [] && b != [] {
      LevZero(Init(a), Init(b));
      assert a == Init(a) + [Last(a)] && b == Init(b) + [Last(b)];
    }
  }

  lemma {:induction false} LevTriangle(a: string, b: string, c: string)
    ensures Lev(a, c) <= Lev(a, b) + Lev(b, c)
    decreases |a| + |b| + |c|
  {
    if a == [] {
      LevBounds(b, c);
    } else if b == [] || c == [] {
      LevBounds(a, b);
      LevBounds(a, c);
    } else {
      LevTriangle(a, Init(b), c);
      LevTriangle(a, Init(b), Init(c));
      LevTriangle(a, b, Init(c));
      LevTriangle(Init(a), b, c);
      LevTriangle(Init(a), Init(b), c);
      LevTriangle(Init(a), Init(b), Init(c));
    }
  }

  /** A common suffix never increases the distance. */
  lemma {:induction false} LevCommonSuffix(a: string, b: string, t: string)
    ensures Lev(a + t, b + t) <= Lev(a, b)
    decreases |t|
  {
    if t == [] {
      assert a + t == a && b + t == b;
    } else {
      LevCommonSuffix(a, b, Init(t));
      assert Init(a + t) == a + Init(t) && Init(b + t) == b + Init(t);
      assert Last(a + t) == Last(b + t) == Last(t);
      LevUnfold(a + t, b + t);
      hide Lev, Init, Last;
    }
  }

  lemma LevAtEnd(pre: string, x: string, y: string)
    requires |x| <= 1 && |y| <= 1
    ensures Lev(pre + x, pre + y) <= 1
  {
    LevZero(pre, pre);
    if x == [] || y == [] {
      assert x == [] ==> pre + x == pre;
      assert y == [] ==> pre + y == pre;
    }
    assert x != [] ==> Init(pre + x) == pre;
    assert y != [] ==> Init(pre + y) == pre;
  }

  lemma SplitAtEdit(e: Edit, s: string) returns (pre: string, x: string, y: string, suf: string)
    requires Enabled(e, s)
    ensures |x| <= 1 && |y| <= 1
    ensures s == pre + x + suf && ApplyEdit(e, s) == pre + y + suf
  {
    pre := s[..e.pos];
    x := if e.Insert? then [] else [s[e.pos]];
    y := if e.Delete? then [] else [e.ch];
    suf := s[e.pos + |x|..];
  }

  lemma LevOneEdit(e: Edit, s: string)
    requires Enabled(e, s)
    ensures Lev(s, ApplyEdit(e, s)) <= 1
  {
    var pre, x, y, suf := SplitAtEdit(e, s);
    LevAtEnd(pre, x, y);
    LevCommonSuffix(pre + x, pre + y, suf);
  }

  // ---- The recurrence is the length of the shortest script ----

  lemma {:induction false} NoShorterScript(script: seq<Edit>, a: string, b: string)
    requires Transforms(script, a, b)
    ensures Lev(a, b) <= |script|
  {
    if script == [] {
      LevZero(a, b);
    } else {
      var a' := ApplyEdit(script[0], a);
      NoShorterScript(script[1..], a', b);
      LevOneEdit(script[0], a);
      LevTriangle(a, a', b);
    }
  }

  lemma EditUnderSuffix(e: Edit, a: string, t: string)
    requires Enabled(e, a)
    ensures Enabled(e, a + t) && ApplyEdit(e, a + t) == ApplyEdit(e, a) + t
  {
    assert (a + t)[..e.pos] == a[..e.pos];
    assert (a + t)[e.pos..] == a[e.pos..] + t;
    if !e.Insert? {
      assert (a + t)[e.pos + 1..] == a[e.pos + 1..] + t;
    }
  }

  lemma {:induction false} TransformsUnderSuffix(script: seq<Edit>, a: string, b: string, t: string)
    requires Transforms(script, a, b)
    ensures Transforms(script, a + t, b + t)
  {
    hide Enabled, ApplyEdit;
    if script != [] {
      EditUnderSuffix(script[0], a, t);
      TransformsUnderSuffix(script[1..], ApplyEdit(script[0], a), b, t);
    }
  }

  lemma {:induction false} TransformsThen(script: seq<Edit>, a: string, b: string, e: Edit)
    requires Transforms(script, a, b) && Enabled(e, b)
    ensures Transforms(script + [e], a, ApplyEdit(e, b))
  {
    if script == [] {
      assert Transforms([e][1..], ApplyEdit(e, a), ApplyEdit(e, b));
    } else {
      TransformsThen(script[1..], ApplyEdit(script[0], a), b, e);
      assert (script + [e])[1..] == script[1..] + [e];
    }
  }

  lemma ThenInsert(script: seq<Edit>, a: string, b: string, y: char)
    requires Transforms(script, a, b)
    ensures Transforms(script + [Insert(|b|, y)], a, b + [y])
  {
    TransformsThen(script, a, b, Insert(|b|, y));
    assert ApplyEdit(Insert(|b|, y), b) == b + [y];
  }

  lemma ThenDelete(script: seq<Edit>, a: string, b: string, x: char)
    requires Transforms(script, a, b)
    ensures Transforms(script + [Delete(|b|)], a + [x], b)
  {
    TransformsUnderSuffix(script, a, b, [x]);
    TransformsThen(script, a + [x], b + [x], Delete(|b|));
    assert ApplyEdit(Delete(|b|), b + [x]) == b;
  }

  lemma ThenReplace(script: seq<Edit>, a: string, b: string, x: char, y: char)
    requires Transforms(script, a, b)
    ensures Transforms(script + [Replace(|b|, y)], a + [x], b + [y])
  {
    TransformsUnderSuffix(script, a, b, [x]);
    TransformsThen(script, a + [x], b + [x], Replace(|b|, y));
    assert ApplyEdit(Replace(|b|, y), b + [x]) == b + [y];
  }

  /** The three ways in which the recurrence can be attained. */
  lemma LevCases(a: string, b: string)
    ensures a == [] && b != [] ==> Lev(a, b) == Lev(a, Init(b)) + 1
    ensures a != [] && b == [] ==> Lev(a, b) == Lev(Init(a), b) + 1
    ensures a != [] && b != [] ==>
      || Lev(a, b) == Lev(a, Init(b)) + 1
      || Lev(a, b) == Lev(Init(a), b) + 1
      || Lev(a, b) == Lev(Init(a), Init(b)) + Differ(Last(a), Last(b))
  {
  }

  lemma InitLast(s: string)
    requires s != []
    ensures s == Init(s) + [Last(s)] && |Init(s)| == |s| - 1
  {
  }

  /** A script for shorter strings, extended by one edit at the end of them. */
  lemma EndWithInsert(script: seq<Edit>, a: string, b: string)
    requires b != [] && Transforms(script, a, Init(b))
    ensures Transforms(script + [Insert(|b| - 1, Last(b))], a, b)
  {
    hide *;
    InitLast(b);
    ThenInsert(script, a, Init(b), Last(b));
  }

  lemma EndWithDelete(script: seq<Edit>, a: string, b: string)
    requires a != [] && Transforms(script, Init(a), b)
    ensures Transforms(script + [Delete(|b|)], a, b)
  {
    hide *;
    InitLast(a);
    ThenDelete(script, Init(a), b, Last(a));
  }

  /** The end stays, or is replaced if it differs. */
  lemma EndWithReplace(script: seq<Edit>, a: string, b: string) returns (longer: seq<Edit>)
    requires a != [] && b != [] && Transforms(script, Init(a), Init(b))
    ensures Transforms(longer, a, b) && |longer| == |script| + Differ(Last(a), Last(b))
  {
    assert Differ(Last(a), Last(b)) == if Last(a) == Last(b) then 0 else 1;
    hide *;
    InitLast(a);
    InitLast(b);
    if Last(a) == Last(b) {
      TransformsUnderSuffix(script, Init(a), Init(b), [Last(a)]);
      longer := script;
    } else {
      ThenReplace(script, Init(a), Init(b), Last(a), Last(b));
      longer := script + [Replace(|b| - 1, Last(b))];
    }
  }

  lemma {:induction false} ScriptExists(a: string, b: string) returns (script: seq<Edit>)
    ensures Transforms(script, a, b) && |script| == Lev(a, b)
    decreases |a| + |b|
  {
    if a == [] && b == [] {
      return [];
    }
    LevCases(a, b);
    hide *;
    if a != [] { InitLast(a); }
    if b != [] { InitLast(b); }
    if b != [] && (a == [] || Lev(a, b) == Lev(a, Init(b)) + 1) {
      script := ScriptExists(a, Init(b));
      EndWithInsert(script, a, b);
      script := script + [Insert(|b| - 1, Last(b))];
    } else if b == [] || Lev(a, b) == Lev(Init(a), b) + 1 {
      script := ScriptExists(Init(a), b);
      EndWithDelete(script, a, b);
      script := script + [Delete(|b|)];
    } else {
      script := ScriptExists(Init(a), Init(b));
      script := EndWithReplace(script, a, b);
    }
  }

  /** `d` is the least length of a script from `a` to `b`, and it is attained. */
  ghost predicate IsDistance(d: nat, a: string, b: string) {
    && (exists script :: Transforms(script, a, b) && |script| == d)
    && (forall script :: Transforms(script, a, b) ==> d <= |script|)
  }

  lemma LevIsDistance(a: string, b: string)
    ensures IsDistance(Lev(a, b), a, b)
  {
    var s := ScriptExists(a, b);
    forall script | Transforms(script, a, b) ensures Lev(a, b) <= |script| {
      NoShorterScript(script, a, b);
    }
  }

  // ---- The two-row table ----

  /** `row` holds the distances from `a` to the first `|row|` prefixes of `b`. */
  ghost predicate IsRow(row: seq<nat>, a: string, b: string) {
    |row| <= |b| + 1 && forall j :: 0 <= j < |row| ==> row[j] == Lev(a, b[..j])
  }

  lemma PrefixInit(s: string, i: nat)
    requires 1 <= i <= |s|
    ensures s[..i] != [] && Init(s[..i]) == s[..i - 1] && Last(s[..i]) == s[i - 1]
  {
  }

  lemma Recurrence(a: string, b: string, i: nat, j: nat)
    requires 1 <= i <= |a| && 1 <= j <= |b|
    ensures Lev(a[..i], b[..j]) == Min(Min(Lev(a[..i], b[..j - 1]) + 1, Lev(a[..i - 1], b[..j]) + 1),
                                       Lev(a[..i - 1], b[..j - 1]) + Differ(a[i - 1], b[j - 1]))
  {
    hide Lev, Init, Last, Min, Differ;
    PrefixInit(a, i);
    PrefixInit(b, j);
    LevUnfold(a[..i], b[..j]);
  }

  lemma LevEmpty(s: string)
    ensures Lev([], s) == |s| && Lev(s, []) == |s|
  {
  }

  method Levenshtein(a: string, b: string) returns (d: nat)
    ensures d == Lev(a, b) && IsDistance(d, a, b)
  {
    LevIsDistance(a, b);
    hide Lev, IsDistance;
    LevZero(a, b);
    if a == b { return 0; }
    LevEmpty(a);
    LevEmpty(b);
    if a == [] { return |b|; }
    if b == [] { return |a|; }
    forall j: nat | j <= |b| ensures Lev(a[..0], b[..j]) == j { LevEmpty(b[..j]); }
    var prevRow: seq<nat> := seq(|b| + 1, j => j);
    for i := 1 to |a| + 1
      invariant |prevRow| == |b| + 1 && IsRow(prevRow, a[..i - 1], b)
    {
      var currRow: seq<nat> := [i];
      LevEmpty(a[..i]);
      for j := 1 to |b| + 1
        invariant |currRow| == j && IsRow(currRow, a[..i], b)
      {
        var insertCost := currRow[j - 1] + 1;
        var deleteCost := prevRow[j] + 1;
        var replaceCost := prevRow[j - 1] + Differ(a[i - 1], b[j - 1]);
        Recurrence(a, b, i, j);
        currRow := currRow + [Min(Min(insertCost, deleteCost), replaceCost)];
      }
      prevRow := currRow;
    }
    assert a[..|a|] == a && b[..|b|] == b;
    return prevRow[|b|];
  }

  // ---- Typosquat matching ----

  datatype TyposquatMatch =
    TyposquatMatch(observed: string, brand: string, distance: nat, lengthDelta: nat, isLegitimate: bool)

  function LengthDelta(a: string, b: string): nat { Max(|a|, |b|) - Min(|a|, |b|) }

  /** The match that `CheckTyposquat` reports for normalised names `o` and `b`, if any. */
  function Matching(o: string, b: string, maxDistance: int, maxLengthDelta: int): Option<TyposquatMatch> {
    var d := Lev(o, b);
    if o == b then Some(TyposquatMatch(o, b, 0, 0, true))
    else if d <= maxDistance && LengthDelta(o, b) <= maxLengthDelta then
      Some(TyposquatMatch(o, b, d, LengthDelta(o, b), false))
    else None
  }

  /** `normalise` stands for `strip().lower()`, and is arbitrary here. */
  method CheckTyposquat(observed: string, brand: string, normalise: string -> string,
                        maxDistance: int := 2, maxLengthDelta: int := 3)
    returns (r: Option<TyposquatMatch>)
    ensures r == Matching(normalise(observed), normalise(brand), maxDistance, maxLengthDelta)
    ensures var o, b := normalise(observed), normalise(brand);
            var delta := if |o| <= |b| then |b| - |o| else |o| - |b|;
            && (r.Some? <==> o == b || (Lev(o, b) <= maxDistance && delta <= maxLengthDelta))
            && (r.Some? ==>
                  && r.value.observed == o && r.value.brand == b
                  && r.value.distance == Lev(o, b) && r.value.lengthDelta == delta
                  && (r.value.isLegitimate <==> o == b))
  {
    hide Lev, IsDistance;
    var o, b := normalise(observed), normalise(brand);
    var distance := Levenshtein(o, b);
    var lengthDelta := if |o| <= |b| then |b| - |o| else |o| - |b|;
    LevZero(o, b);
    if distance == 0 {
      return Some(TyposquatMatch(o, b, 0, lengthDelta, true));
    }
    if distance <= maxDistance && lengthDelta <= maxLengthDelta {
      return Some(TyposquatMatch(o, b, distance, lengthDelta, false));
    }
    return None;
  }

  function Verdict(observed: string, list: seq<string>, k: nat, normalise: string -> string,
                   maxDistance: int, maxLengthDelta: int): Option<TyposquatMatch>
    requires k < |list|
  {
    Matching(normalise(observed), normalise(list[k]), maxDistance, maxLengthDelta)
  }

  /** `brands` is absent or empty when the caller relies on the configured list. */
  method FirstTyposquat(observed: string, brands: Option<seq<string>>, protectedBrands: seq<string>,
                        normalise: string -> string, maxDistance: int := 2, maxLengthDelta: int := 3)
    returns (r: Option<TyposquatMatch>)
    ensures var list := if brands.Some? && brands.value != [] then brands.value else protectedBrands;
            r == None ==> forall k: nat :: k < |list| ==>
              Verdict(observed, list, k, normalise, maxDistance, maxLengthDelta) == None
    ensures var list := if brands.Some? && brands.value != [] then brands.value else protectedBrands;
            r.Some? ==>
              exists k: nat ::
                && k < |list|
                && r == Verdict(observed, list, k, normalise, maxDistance, maxLengthDelta)
                && forall j: nat :: j < k ==>
                     Verdict(observed, list, j, normalise, maxDistance, maxLengthDelta) == None
  {
    var list := if brands.Some? && brands.value != [] then brands.value else protectedBrands;
    for k := 0 to |list|
      invariant forall j: nat :: j < k ==>
        Verdict(observed, list, j, normalise, maxDistance, maxLengthDelta) == None
    {
      r := CheckTyposquat(observed, list[k], normalise, maxDistance, maxLengthDelta);
      if r.Some? {
        assert r == Verdict(observed, list, k, normalise, maxDistance, maxLengthDelta);
        return;
      }
    }
    r := None;
  }

  /** The outcome when only the distance test is applied. */
  predicate MatchingByDistance(o: string, b: string, maxDistance: int) {
    o == b || Lev(o, b) <= maxDistance
  }

  /** The length-delta guard is redundant for every pair of names exactly when it is no
      tighter than the distance bound, or when no pair can pass the distance test. */
  lemma LengthGuardRedundantIff(maxDistance: int, maxLengthDelta: int)
    ensures (forall o, b :: Matching(o, b, maxDistance, maxLengthDelta).Some? <==> MatchingByDistance(o, b, maxDistance))
       <==> maxDistance <= maxLengthDelta || maxDistance <= 0
  {
    if maxDistance <= maxLengthDelta || maxDistance <= 0 {
      forall o, b
        ensures Matching(o, b, maxDistance, maxLengthDelta).Some? <==> MatchingByDistance(o, b, maxDistance)
      {
        LevBounds(o, b);
        LevZero(o, b);
      }
    } else {
      var far: string := seq(maxDistance, i => 'x');
      assert Lev([], far) == maxDistance && LengthDelta([], far) == maxDistance;
      assert MatchingByDistance([], far, maxDistance) && Matching([], far, maxDistance, maxLengthDelta).None?;
    }
  }
}
