/**
 The nesting-depth check that precedes JSON decoding
 (server/src/zaqorincore_server/utils/depth_json.py), against the structural depth of the value
 that the text spells.
 */
module Json {
  import opened Hexadecimal
  import opened Numbers
  import opened Strings
  import opened Wrappers

  /** What a string holds, lone surrogates included. */
  type CodePoint = n: nat | n < 0x11_0000

  type Text = seq<CodePoint>

  /** A literal is a number, `true`, `false` or `null`. */
  datatype Value =
    | Literal(text: string)
    | Str(chars: Text)
    | Arr(items: Items)
    | Obj(members: Members)

  datatype Items = NoItems | MoreItems(head: Value, tail: Items)

  datatype Members = NoMembers | MoreMembers(key: Text, head: Value, tail: Members)

  function Depth(v: Value): nat {
    match v
    case Literal(_) => 0
    case Str(_) => 0
    case Arr(items) => 1 + ItemsDepth(items)
    case Obj(members) => 1 + MembersDepth(members)
  }

  function ItemsDepth(items: Items): nat {
    match items
    case NoItems => 0
    case MoreItems(head, tail) => Max(Depth(head), ItemsDepth(tail))
  }

  function MembersDepth(members: Members): nat {
    match members
    case NoMembers => 0
    case MoreMembers(_, head, tail) => Max(Depth(head), MembersDepth(tail))
  }

  // ---- Texts ----

  const STRUCTURAL: set<char> := {'"', '[', ']', '{', '}'}

  /** No quotes and no brackets: numbers, `true`, `false`, `null`, and the white space in gaps. */
  predicate Plain(s: string) { forall i :: 0 <= i < |s| ==> s[i] !in STRUCTURAL }

  /** The two-character escapes, by their second character. */
  function ShortEscape(c: char): Option<CodePoint> {
    if c == '"' || c == '\\' || c == '/' then Some(c as int)
    else if c == 'b' then Some(8)
    else if c == 'f' then Some(12)
    else if c == 'n' then Some(10)
    else if c == 'r' then Some(13)
    else if c == 't' then Some(9)
    else None
  }

  /** A backslash, `u` and four hexadecimal digits of either case. */
  function UnicodeEscape(u: string): Option<nat> {
    if |u| == 6 && u[..2] == "\\u" then ReadHex(u[2..], 0) else None
  }

  const SUPPLEMENTARY := 0x1_0000

  /** Section 7 of RFC 8259: the character itself, a two-character escape, a six-character escape,
      or, above the basic plane, two of those. */
  predicate SpellsChar(n: CodePoint, u: string) {
    || (|u| == 1 && u[0] as int == n && n >= 0x20 && u[0] != '"' && u[0] != '\\')
    || (|u| == 2 && u[0] == '\\' && ShortEscape(u[1]) == Some(n))
    || UnicodeEscape(u) == Some(n)
    || (|u| == 12 && n >= SUPPLEMENTARY && UnicodeEscape(u[..6]) == Some(0xD800 + (n - SUPPLEMENTARY) / 0x400)
        && UnicodeEscape(u[6..]) == Some(0xDC00 + (n - SUPPLEMENTARY) % 0x400))
  }

  ghost predicate SpellsChars(text: Text, t: string)
    decreases |text|
  {
    if text == [] then t == "" else
      exists u, rest :: t == u + rest && SpellsChar(text[0], u) && SpellsChars(text[1..], rest)
  }

  ghost predicate SpellsString(text: Text, t: string) {
    exists body :: t == "\"" + body + "\"" && SpellsChars(text, body)
  }

  /** `t` is a text of the value `v`: every string and key in any spelling, and any plain filler in
      each gap between tokens. */
  ghost predicate Spells(v: Value, t: string)
    decreases v, 0
  {
    match v
    case Literal(text) => t == text && Plain(text)
    case Str(chars) => SpellsString(chars, t)
    case Arr(items) => exists body :: t == "[" + body + "]" && SpellsItems(items, body)
    case Obj(members) => exists body :: t == "{" + body + "}" && SpellsMembers(members, body)
  }

  ghost predicate SpellsItems(items: Items, t: string)
    decreases items, 0
  {
    match items
    case NoItems => Plain(t)
    case MoreItems(head, tail) =>
      exists gap, first, rest :: t == gap + first + rest && Plain(gap) && Spells(head, first) && SpellsItemsRest(tail, rest)
  }

  ghost predicate SpellsItemsRest(tail: Items, t: string)
    decreases tail, 1
  {
    if tail.NoItems? then Plain(t) else
      exists gap, more :: t == gap + "," + more && Plain(gap) && SpellsItems(tail, more)
  }

  ghost predicate SpellsMembers(members: Members, t: string)
    decreases members, 0
  {
    match members
    case NoMembers => Plain(t)
    case MoreMembers(key, head, tail) =>
      exists name, first, rest ::
        t == name + first + rest && SpellsName(key, name) && Spells(head, first) && SpellsMembersRest(tail, rest)
  }

  /** A key up to its value: the colon, and the gaps around key and colon. */
  ghost predicate SpellsName(key: Text, t: string) {
    exists gap, k, before, after ::
      t == gap + k + before + ":" + after && Plain(gap) && SpellsString(key, k) && Plain(before) && Plain(after)
  }

  ghost predicate SpellsMembersRest(tail: Members, t: string)
    decreases tail, 1
  {
    if tail.NoMembers? then Plain(t) else
      exists gap, more :: t == gap + "," + more && Plain(gap) && SpellsMembers(tail, more)
  }

  // ---- Every value has a text ----

  predicate WellFormed(v: Value) {
    match v
    case Literal(text) => Plain(text)
    case Str(_) => true
    case Arr(items) => WellFormedItems(items)
    case Obj(members) => WellFormedMembers(members)
  }

  predicate WellFormedItems(items: Items) {
    items.MoreItems? ==> WellFormed(items.head) && WellFormedItems(items.tail)
  }

  predicate WellFormedMembers(members: Members) {
    members.MoreMembers? ==> WellFormed(members.head) && WellFormedMembers(members.tail)
  }

  /** Printable ASCII stands for itself; quotes and backslashes are escaped; the rest is spelled in
      hexadecimal. */
  function PrintChar(n: CodePoint): string {
    if n == '"' as int || n == '\\' as int then ['\\', n as char]
    else if 0x20 <= n < 0x7F then [n as char]
    else if n < SUPPLEMENTARY then "\\u" + Hex4(n)
    else "\\u" + Hex4(0xD800 + (n - SUPPLEMENTARY) / 0x400) + ("\\u" + Hex4(0xDC00 + (n - SUPPLEMENTARY) % 0x400))
  }

  function PrintChars(text: Text): string {
    if text == [] then "" else PrintChar(text[0]) + PrintChars(text[1..])
  }

  function PrintString(text: Text): string { "\"" + PrintChars(text) + "\"" }

  function Print(v: Value): string {
    match v
    case Literal(text) => text
    case Str(chars) => PrintString(chars)
    case Arr(items) => "[" + PrintItems(items) + "]"
    case Obj(members) => "{" + PrintMembers(members) + "}"
  }

  function PrintItems(items: Items): string {
    match items
    case NoItems => ""
    case MoreItems(head, tail) => Print(head) + if tail.NoItems? then "" else "," + (" " + PrintItems(tail))
  }

  function PrintMembers(members: Members): string {
    match members
    case NoMembers => ""
    case MoreMembers(key, head, tail) =>
      PrintString(key) + ":" + " " + Print(head) + if tail.NoMembers? then "" else "," + (" " + PrintMembers(tail))
  }

  lemma EscapeSpells(n: nat)
    requires n < 0x1_0000
    ensures UnicodeEscape("\\u" + Hex4(n)) == Some(n)
  {
    HexReadsBack(n);
    assert ("\\u" + Hex4(n))[2..] == Hex4(n);
    hide Hex4, ReadHex;
  }

  lemma CharSpells(n: CodePoint)
    ensures SpellsChar(n, PrintChar(n))
  {
    if n >= SUPPLEMENTARY {
      var high, low := 0xD800 + (n - SUPPLEMENTARY) / 0x400, 0xDC00 + (n - SUPPLEMENTARY) % 0x400;
      EscapeSpells(high);
      EscapeSpells(low);
      hide UnicodeEscape;
      assert PrintChar(n)[..6] == "\\u" + Hex4(high) && PrintChar(n)[6..] == "\\u" + Hex4(low);
    } else if !(0x20 <= n < 0x7F) {
      EscapeSpells(n);
      hide UnicodeEscape;
    }
  }

  lemma {:induction false} CharsSpell(text: Text)
    ensures SpellsChars(text, PrintChars(text))
    decreases |text|
  {
    hide SpellsChar, PrintChar;
    if text != [] {
      CharSpells(text[0]);
      CharsSpell(text[1..]);
    }
  }

  lemma StringSpells(text: Text)
    ensures SpellsString(text, PrintString(text))
  {
    hide SpellsChars, PrintChars;
    CharsSpell(text);
  }

  lemma {:induction false} PrintSpells(v: Value)
    requires WellFormed(v)
    ensures Spells(v, Print(v))
    decreases v, 1
  {
    hide SpellsItems, SpellsMembers, SpellsString, PrintString, PrintItems, PrintMembers;
    match v
    case Literal(_) =>
    case Str(chars) => StringSpells(chars);
    case Arr(items) => PrintSpellsItems(items);
    case Obj(members) => PrintSpellsMembers(members);
  }

  lemma JoinItems(items: Items, gap: string, first: string, rest: string)
    requires items.MoreItems? && Plain(gap) && Spells(items.head, first) && SpellsItemsRest(items.tail, rest)
    ensures SpellsItems(items, gap + first + rest)
  {
    hide Spells, SpellsItemsRest, Plain;
  }

  lemma BlankPlain(t: string)
    ensures Plain("") && (Plain(t) ==> Plain(" " + t))
  {
  }

  /** One more space in front. */
  lemma FillerSpells(items: Items, t: string)
    requires SpellsItems(items, t)
    ensures SpellsItems(items, " " + t)
  {
    hide Spells, SpellsItemsRest, Plain;
    BlankPlain(t);
    if items.MoreItems? {
      var gap, first, rest :|
        t == gap + first + rest && Plain(gap) && Spells(items.head, first) && SpellsItemsRest(items.tail, rest);
      hide *;
      BlankPlain(gap);
      JoinItems(items, " " + gap, first, rest);
      Associative(" ", gap + first, rest);
      Associative(" ", gap, first);
    }
  }

  lemma JoinItemsRest(tail: Items, more: string)
    requires tail.MoreItems? && SpellsItems(tail, more)
    ensures SpellsItemsRest(tail, "," + more)
  {
    BlankPlain("");
    hide SpellsItems, Plain;
    assert "," + more == "" + "," + more;
  }

  lemma {:induction false} PrintSpellsItems(items: Items)
    requires WellFormedItems(items)
    ensures SpellsItems(items, PrintItems(items))
    decreases items, 1
  {
    hide Spells, Print, SpellsItems, Plain;
    BlankPlain("");
    if items.MoreItems? {
      var tail, first := items.tail, Print(items.head);
      PrintSpells(items.head);
      assert "" + first == first;
      if tail.NoItems? {
        JoinItems(items, "", first, "");
      } else {
        PrintSpellsItems(tail);
        FillerSpells(tail, PrintItems(tail));
        JoinItemsRest(tail, " " + PrintItems(tail));
        hide SpellsItemsRest, WellFormedItems;
        JoinItems(items, "", first, "," + (" " + PrintItems(tail)));
      }
    } else {
      NoItemsSpell(items);
    }
  }

  lemma NoItemsSpell(items: Items)
    requires items.NoItems?
    ensures SpellsItems(items, "")
  {
  }

  lemma JoinName(key: Text, gap: string, k: string, before: string, after: string)
    requires Plain(gap) && SpellsString(key, k) && Plain(before) && Plain(after)
    ensures SpellsName(key, gap + k + before + ":" + after)
  {
    hide SpellsString, Plain;
  }

  lemma NameSpells(key: Text)
    ensures SpellsName(key, PrintString(key) + ":" + " ")
  {
    StringSpells(key);
    BlankPlain("");
    hide *;
    var k := PrintString(key);
    assert "" + k + "" == k && " " + "" == " ";
    JoinName(key, "", k, "", " ");
  }

  lemma FillerSpellsName(key: Text, t: string)
    requires SpellsName(key, t)
    ensures SpellsName(key, " " + t)
  {
    hide SpellsString, Plain;
    var gap, k, before, after :|
      t == gap + k + before + ":" + after && Plain(gap) && SpellsString(key, k) && Plain(before) && Plain(after);
    hide *;
    BlankPlain(gap);
    JoinName(key, " " + gap, k, before, after);
    Associative(" ", gap + k + before + ":", after);
    Associative(" ", gap + k + before, ":");
    Associative(" ", gap + k, before);
    Associative(" ", gap, k);
  }

  lemma JoinMembers(members: Members, name: string, first: string, rest: string)
    requires members.MoreMembers? && SpellsName(members.key, name) && Spells(members.head, first)
    requires SpellsMembersRest(members.tail, rest)
    ensures SpellsMembers(members, name + first + rest)
  {
    hide Spells, SpellsName, SpellsMembersRest;
  }

  lemma FillerSpellsMembers(members: Members, t: string)
    requires SpellsMembers(members, t)
    ensures SpellsMembers(members, " " + t)
  {
    hide Spells, SpellsMembersRest, SpellsName, Plain;
    BlankPlain(t);
    if members.MoreMembers? {
      var name, first, rest :|
        t == name + first + rest && SpellsName(members.key, name) && Spells(members.head, first)
        && SpellsMembersRest(members.tail, rest);
      hide *;
      FillerSpellsName(members.key, name);
      JoinMembers(members, " " + name, first, rest);
      Associative(" ", name + first, rest);
      Associative(" ", name, first);
    }
  }

  lemma JoinMembersRest(tail: Members, more: string)
    requires tail.MoreMembers? && SpellsMembers(tail, more)
    ensures SpellsMembersRest(tail, "," + more)
  {
    BlankPlain("");
    hide SpellsMembers, Plain;
    assert "," + more == "" + "," + more;
  }

  lemma {:induction false} PrintSpellsMembers(members: Members)
    requires WellFormedMembers(members)
    ensures SpellsMembers(members, PrintMembers(members))
    decreases members, 1
  {
    hide Spells, Print, SpellsName, SpellsMembers, PrintString, Plain;
    BlankPlain("");
    if members.MoreMembers? {
      var tail, name, first := members.tail, PrintString(members.key) + ":" + " ", Print(members.head);
      NameSpells(members.key);
      PrintSpells(members.head);
      if tail.NoMembers? {
        JoinMembers(members, name, first, "");
      } else {
        PrintSpellsMembers(tail);
        FillerSpellsMembers(tail, PrintMembers(tail));
        JoinMembersRest(tail, " " + PrintMembers(tail));
        hide SpellsMembersRest, WellFormedMembers;
        JoinMembers(members, name, first, "," + (" " + PrintMembers(tail)));
      }
    } else {
      NoMembersSpell(members);
    }
  }

  lemma NoMembersSpell(members: Members)
    requires members.NoMembers?
    ensures SpellsMembers(members, "")
  {
  }
}

module DepthJson {
  import opened Hexadecimal
  import opened Json
  import opened Numbers

  const MAX_JSON_DEPTH := 32

  /** What the scan carries from one character to the next. */
  datatype Scan = Scan(depth: int, inString: bool, escape: bool)

  function Outside(depth: int): Scan { Scan(depth, false, false) }

  predicate Opens(st: Scan, ch: char) { !st.inString && (ch == '[' || ch == '{') }

  function Next(st: Scan, ch: char): Scan {
    if st.inString then
      if st.escape then st.(escape := false)
      else if ch == '\\' then st.(escape := true)
      else if ch == '"' then st.(inString := false)
      else st
    else if ch == '"' then st.(inString := true)
    else if ch == '[' || ch == '{' then st.(depth := st.depth + 1)
    else if ch == ']' || ch == '}' then st.(depth := st.depth - 1)
    else st
  }

  function Scanned(st: Scan, t: string): Scan
    decreases |t|
  {
    if t == "" then st else Scanned(Next(st, t[0]), t[1..])
  }

  /** Some bracket that opens outside a string takes the depth above `maxDepth`. */
  predicate Exceeds(st: Scan, t: string, maxDepth: int)
    decreases |t|
  {
    t != "" && ((Opens(st, t[0]) && st.depth + 1 > maxDepth) || Exceeds(Next(st, t[0]), t[1..], maxDepth))
  }

  /** `raised` stands for the ValueError of `_check_depth`. */
  method CheckDepth(s: string, idx: nat, maxDepth: int := MAX_JSON_DEPTH) returns (raised: bool)
    ensures raised <==> Exceeds(Outside(0), if idx <= |s| then s[idx..] else "", maxDepth)
  {
    var depth, inString, escape, i, n := 0, false, false, idx, |s|;
    ghost var t := if idx <= n then s[idx..] else "";
    while i < n
      invariant idx <= i <= n || n < idx == i
      invariant idx <= n ==> Exceeds(Outside(0), t, maxDepth) == Exceeds(Scan(depth, inString, escape), s[i..], maxDepth)
    {
      var ch := s[i];
      if inString {
        if escape {
          escape := false;
        } else if ch == '\\' {
          escape := true;
        } else if ch == '"' {
          inString := false;
        }
      } else {
        if ch == '"' {
          inString := true;
        } else if ch == '[' || ch == '{' {
          depth := depth + 1;
          if depth > maxDepth {
            return true;
          }
        } else if ch == ']' || ch == '}' {
          depth := depth - 1;
        }
      }
      i := i + 1;
    }
    return false;
  }

  // ---- Scanning a text of a value ----

  lemma {:induction false} ScanConcat(st: Scan, a: string, b: string, maxDepth: int)
    ensures Scanned(st, a + b) == Scanned(Scanned(st, a), b)
    ensures Exceeds(st, a + b, maxDepth) <==> Exceeds(st, a, maxDepth) || Exceeds(Scanned(st, a), b, maxDepth)
    decreases |a|
  {
    if a == "" {
      assert a + b == b;
    } else {
      ScanConcat(Next(st, a[0]), a[1..], b, maxDepth);
      assert (a + b)[1..] == a[1..] + b && (a + b)[0] == a[0];
    }
  }

  /** From `st`, the text leads back to `st`, and exceeds the limit iff `exceeds`. */
  ghost predicate Returns(st: Scan, t: string, maxDepth: int, exceeds: bool) {
    Scanned(st, t) == st && (Exceeds(st, t, maxDepth) <==> exceeds)
  }

  lemma ReturnsConcat(st: Scan, a: string, b: string, maxDepth: int, ea: bool, eb: bool)
    requires Returns(st, a, maxDepth, ea) && Returns(st, b, maxDepth, eb)
    ensures Returns(st, a + b, maxDepth, ea || eb)
  {
    ScanConcat(st, a, b, maxDepth);
  }

  lemma {:induction false} PlainReturns(depth: int, t: string, maxDepth: int)
    requires Plain(t)
    ensures Returns(Outside(depth), t, maxDepth, false)
    decreases |t|
  {
    if t != "" {
      PlainReturns(depth, t[1..], maxDepth);
    }
  }

  function Inside(depth: int): Scan { Scan(depth, true, false) }

  lemma {:induction false} InStringReturns(depth: int, t: string, maxDepth: int)
    requires forall i :: 0 <= i < |t| ==> t[i] != '"' && t[i] != '\\'
    ensures Returns(Inside(depth), t, maxDepth, false)
    decreases |t|
  {
    if t != "" {
      InStringReturns(depth, t[1..], maxDepth);
    }
  }

  lemma EscapePair(depth: int, t: string, maxDepth: int)
    requires |t| >= 2 && t[0] == '\\' && Returns(Inside(depth), t[2..], maxDepth, false)
    ensures Returns(Inside(depth), t, maxDepth, false)
  {
    assert t[1..][1..] == t[2..];
    assert Next(Next(Inside(depth), t[0]), t[1]) == Inside(depth);
  }

  lemma UnicodeReturns(depth: int, u: string, maxDepth: int)
    requires UnicodeEscape(u).Some?
    ensures Returns(Inside(depth), u, maxDepth, false)
  {
    assert u[..2][0] == u[0];
    HexIsUnquoted(u[2..], 0);
    hide ReadHex;
    InStringReturns(depth, u[2..], maxDepth);
    EscapePair(depth, u, maxDepth);
  }

  /** However a character is spelled, the scan is inside the string afterwards. */
  lemma CharReturns(depth: int, n: CodePoint, u: string, maxDepth: int)
    requires SpellsChar(n, u)
    ensures Returns(Inside(depth), u, maxDepth, false)
  {
    hide Returns, UnicodeEscape;
    if |u| == 1 {
      InStringReturns(depth, u, maxDepth) by { UnicodeIsLong(u); }
    } else if |u| == 2 {
      UnicodeIsLong(u);
      InStringReturns(depth, u[2..], maxDepth);
      EscapePair(depth, u, maxDepth);
    } else if UnicodeEscape(u).Some? {
      UnicodeReturns(depth, u, maxDepth);
    } else {
      UnicodeReturns(depth, u[..6], maxDepth);
      UnicodeReturns(depth, u[6..], maxDepth);
      ReturnsConcat(Inside(depth), u[..6], u[6..], maxDepth, false, false);
      assert u == u[..6] + u[6..];
    }
  }

  lemma UnicodeIsLong(u: string)
    ensures UnicodeEscape(u).Some? ==> |u| == 6
  {
  }

  lemma {:induction false} CharsReturn(depth: int, text: Text, t: string, maxDepth: int)
    requires SpellsChars(text, t)
    ensures Returns(Inside(depth), t, maxDepth, false)
    decreases |text|
  {
    if text == [] {
      InStringReturns(depth, t, maxDepth);
    } else {
      var u, rest :| t == u + rest && SpellsChar(text[0], u) && SpellsChars(text[1..], rest);
      hide *;
      CharReturns(depth, text[0], u, maxDepth);
      CharsReturn(depth, text[1..], rest, maxDepth);
      ReturnsConcat(Inside(depth), u, rest, maxDepth, false, false);
    }
  }

  /** Whatever a string contains and however it is spelled, it leaves the depth alone. */
  lemma StringReturns(depth: int, text: Text, t: string, maxDepth: int)
    requires SpellsString(text, t)
    ensures Returns(Outside(depth), t, maxDepth, false)
  {
    var body :| t == "\"" + body + "\"" && SpellsChars(text, body);
    hide SpellsChars, SpellsString;
    CharsReturn(depth, text, body, maxDepth);
    ScanConcat(Inside(depth), body, "\"", maxDepth);
    assert t[1..] == body + "\"";
    assert "\""[1..] == "";
  }

  lemma Bracketed(depth: int, open: char, body: string, close: char, maxDepth: int, d: nat)
    requires (open == '[' && close == ']') || (open == '{' && close == '}')
    requires Returns(Outside(depth + 1), body, maxDepth, TooDeep(depth + 1, d, maxDepth))
    ensures Returns(Outside(depth), [open] + body + [close], maxDepth, TooDeep(depth, 1 + d, maxDepth))
  {
    ScanConcat(Outside(depth + 1), body, [close], maxDepth);
    assert ([open] + body + [close])[1..] == body + [close];
    assert [close][1..] == "";
    assert Next(Outside(depth + 1), close) == Outside(depth);
  }

  /** An inner value of depth `d` takes the scan above the limit. */
  predicate TooDeep(depth: int, d: nat, maxDepth: int) { d > 0 && depth + d > maxDepth }

  lemma {:induction false} ValueReturns(v: Value, t: string, depth: int, maxDepth: int)
    requires Spells(v, t)
    ensures Returns(Outside(depth), t, maxDepth, TooDeep(depth, Depth(v), maxDepth))
    decreases v, 1
  {
    hide Returns, Scanned, Exceeds, SpellsItems, SpellsMembers, SpellsString;
    match v
    case Literal(text) => PlainReturns(depth, text, maxDepth);
    case Str(chars) => StringReturns(depth, chars, t, maxDepth);
    case Arr(items) =>
      var body :| t == "[" + body + "]" && SpellsItems(items, body);
      ItemsReturn(items, body, depth + 1, maxDepth);
      Bracketed(depth, '[', body, ']', maxDepth, ItemsDepth(items));
    case Obj(members) =>
      var body :| t == "{" + body + "}" && SpellsMembers(members, body);
      MembersReturn(members, body, depth + 1, maxDepth);
      Bracketed(depth, '{', body, '}', maxDepth, MembersDepth(members));
  }

  lemma {:induction false} ItemsReturn(items: Items, t: string, depth: int, maxDepth: int)
    requires SpellsItems(items, t)
    ensures Returns(Outside(depth), t, maxDepth, TooDeep(depth, ItemsDepth(items), maxDepth))
    decreases items, 1
  {
    hide Returns, Spells, SpellsItemsRest, Plain;
    match items
    case NoItems => PlainReturns(depth, t, maxDepth);
    case MoreItems(head, tail) =>
      var gap, first, rest :| t == gap + first + rest && Plain(gap) && Spells(head, first) && SpellsItemsRest(tail, rest);
      PlainReturns(depth, gap, maxDepth);
      ValueReturns(head, first, depth, maxDepth);
      ItemsRestReturn(tail, rest, depth, maxDepth);
      ThreeReturn(depth, gap, first, rest, maxDepth, Depth(head), ItemsDepth(tail));
  }

  lemma {:induction false} ItemsRestReturn(tail: Items, t: string, depth: int, maxDepth: int)
    requires SpellsItemsRest(tail, t)
    ensures Returns(Outside(depth), t, maxDepth, TooDeep(depth, ItemsDepth(tail), maxDepth))
    decreases tail, 2
  {
    hide Returns, SpellsItems, Plain;
    if tail.NoItems? {
      PlainReturns(depth, t, maxDepth);
    } else {
      var gap, more :| t == gap + "," + more && Plain(gap) && SpellsItems(tail, more);
      ItemsReturn(tail, more, depth, maxDepth);
      CommaReturns(depth, gap, more, maxDepth, ItemsDepth(tail));
    }
  }

  lemma {:induction false} MembersReturn(members: Members, t: string, depth: int, maxDepth: int)
    requires SpellsMembers(members, t)
    ensures Returns(Outside(depth), t, maxDepth, TooDeep(depth, MembersDepth(members), maxDepth))
    decreases members, 1
  {
    hide Returns, Spells, SpellsName, SpellsMembersRest, Plain;
    match members
    case NoMembers => PlainReturns(depth, t, maxDepth);
    case MoreMembers(key, head, tail) =>
      var name, first, rest :|
        t == name + first + rest && SpellsName(key, name) && Spells(head, first) && SpellsMembersRest(tail, rest);
      NameReturns(key, name, depth, maxDepth);
      ValueReturns(head, first, depth, maxDepth);
      MembersRestReturn(tail, rest, depth, maxDepth);
      ThreeReturn(depth, name, first, rest, maxDepth, Depth(head), MembersDepth(tail));
  }

  lemma {:induction false} MembersRestReturn(tail: Members, t: string, depth: int, maxDepth: int)
    requires SpellsMembersRest(tail, t)
    ensures Returns(Outside(depth), t, maxDepth, TooDeep(depth, MembersDepth(tail), maxDepth))
    decreases tail, 2
  {
    hide Returns, SpellsMembers, Plain;
    if tail.NoMembers? {
      PlainReturns(depth, t, maxDepth);
    } else {
      var gap, more :| t == gap + "," + more && Plain(gap) && SpellsMembers(tail, more);
      MembersReturn(tail, more, depth, maxDepth);
      CommaReturns(depth, gap, more, maxDepth, MembersDepth(tail));
    }
  }

  lemma NameReturns(key: Text, t: string, depth: int, maxDepth: int)
    requires SpellsName(key, t)
    ensures Returns(Outside(depth), t, maxDepth, false)
  {
    hide Returns, SpellsString, Plain;
    var gap, k, before, after :|
      t == gap + k + before + ":" + after && Plain(gap) && SpellsString(key, k) && Plain(before) && Plain(after);
    var st := Outside(depth);
    PlainReturns(depth, gap, maxDepth);
    StringReturns(depth, key, k, maxDepth);
    PlainReturns(depth, before, maxDepth);
    PlainReturns(depth, ":", maxDepth) by { SeparatorsArePlain(); }
    PlainReturns(depth, after, maxDepth);
    ReturnsConcat(st, gap, k, maxDepth, false, false);
    ReturnsConcat(st, gap + k, before, maxDepth, false, false);
    ReturnsConcat(st, gap + k + before, ":", maxDepth, false, false);
    ReturnsConcat(st, gap + k + before + ":", after, maxDepth, false, false);
  }

  lemma SeparatorsArePlain()
    ensures Plain(":") && Plain(",")
  {
  }

  lemma CommaReturns(depth: int, gap: string, more: string, maxDepth: int, d: nat)
    requires Plain(gap) && Returns(Outside(depth), more, maxDepth, TooDeep(depth, d, maxDepth))
    ensures Returns(Outside(depth), gap + "," + more, maxDepth, TooDeep(depth, d, maxDepth))
  {
    hide Returns, Plain;
    PlainReturns(depth, gap, maxDepth);
    PlainReturns(depth, ",", maxDepth) by { SeparatorsArePlain(); }
    ReturnsConcat(Outside(depth), gap, ",", maxDepth, false, false);
    ReturnsConcat(Outside(depth), gap + ",", more, maxDepth, false, TooDeep(depth, d, maxDepth));
  }

  lemma ThreeReturn(depth: int, lead: string, first: string, rest: string, maxDepth: int, d: nat, e: nat)
    requires Returns(Outside(depth), lead, maxDepth, false)
    requires Returns(Outside(depth), first, maxDepth, TooDeep(depth, d, maxDepth))
    requires Returns(Outside(depth), rest, maxDepth, TooDeep(depth, e, maxDepth))
    ensures Returns(Outside(depth), lead + first + rest, maxDepth, TooDeep(depth, Max(d, e), maxDepth))
  {
    hide Returns;
    ReturnsConcat(Outside(depth), lead, first, maxDepth, false, TooDeep(depth, d, maxDepth));
    ReturnsConcat(Outside(depth), lead + first, rest, maxDepth, TooDeep(depth, d, maxDepth), TooDeep(depth, e, maxDepth));
  }

  /** On any text of a value, wherever it starts in the input and whatever follows it, the check
      raises exactly when the value nests deeper than the limit or what follows raises by itself;
      plain text after the value never does. A scalar never raises, whatever the limit and
      whatever brackets, quotes and backslashes its strings hold. */
  lemma RaisesIffTooDeep(v: Value, t: string, before: string, gap: string, after: string, maxDepth: int)
    requires Spells(v, t) && Plain(gap)
    ensures var s, deep := before + (gap + t + after), Depth(v) > 0 && Depth(v) > maxDepth;
            && (Exceeds(Outside(0), s[|before|..], maxDepth) <==> deep || Exceeds(Outside(0), after, maxDepth))
            && (Plain(after) ==> (Exceeds(Outside(0), s[|before|..], maxDepth) <==> deep))
  {
    ValueReturns(v, t, 0, maxDepth);
    PlainReturns(0, gap, maxDepth);
    if Plain(after) { PlainReturns(0, after, maxDepth); }
    hide Spells, Plain;
    assert (before + (gap + t + after))[|before|..] == gap + t + after;
    ReturnsConcat(Outside(0), gap, t, maxDepth, false, TooDeep(0, Depth(v), maxDepth));
    hide Scanned, Exceeds;
    ScanConcat(Outside(0), gap + t, after, maxDepth);
  }

  // ---- Any text, well formed or not ----

  /** What follows the string whose opening quote precedes `t`; a backslash takes the character
      after it along, and an unfinished string extends to the end. */
  function AfterString(t: string): (r: string)
    ensures |r| <= |t|
    decreases |t|
  {
    if t == "" then ""
    else if t[0] == '"' then t[1..]
    else if t[0] == '\\' then (if |t| == 1 then "" else AfterString(t[2..]))
    else AfterString(t[1..])
  }

  /** The text without its strings. */
  function Stripped(t: string): string
    decreases |t|
  {
    if t == "" then ""
    else if t[0] == '"' then Stripped(AfterString(t[1..]))
    else [t[0]] + Stripped(t[1..])
  }

  /** Opening brackets less closing ones. */
  function Unclosed(s: string): int {
    if s == "" then 0 else
      var c := s[|s| - 1];
      Unclosed(s[..|s| - 1]) + (if c == '[' || c == '{' then 1 else if c == ']' || c == '}' then -1 else 0)
  }

  lemma {:induction false} StringSkipped(depth: int, t: string, maxDepth: int)
    ensures Exceeds(Scan(depth, true, false), t, maxDepth) <==> Exceeds(Outside(depth), AfterString(t), maxDepth)
    decreases |t|
  {
    if t != "" && t[0] == '\\' {
      if |t| > 1 {
        assert t[1..][1..] == t[2..];
        StringSkipped(depth, t[2..], maxDepth);
      }
    } else if t != "" && t[0] != '"' {
      StringSkipped(depth, t[1..], maxDepth);
    }
  }

  lemma {:induction false} StringsDoNotCount(depth: int, t: string, maxDepth: int)
    ensures Exceeds(Outside(depth), t, maxDepth) <==> Exceeds(Outside(depth), Stripped(t), maxDepth)
    ensures forall i :: 0 <= i < |Stripped(t)| ==> Stripped(t)[i] != '"'
    decreases |t|
  {
    if t != "" {
      var c := t[0];
      if c == '"' {
        StringSkipped(depth, t[1..], maxDepth);
        StringsDoNotCount(depth, AfterString(t[1..]), maxDepth);
      } else {
        StringsDoNotCount(Next(Outside(depth), c).depth, t[1..], maxDepth);
        assert Stripped(t)[1..] == Stripped(t[1..]);
      }
    }
  }

  lemma {:induction false} UnclosedFront(c: char, s: string)
    ensures Unclosed([c] + s) == Next(Outside(0), c).depth + Unclosed(s)
    decreases |s|
  {
    if s == "" {
      assert [c] + s == [c] && [c][..0] == "";
    } else {
      UnclosedFront(c, s[..|s| - 1]);
      assert ([c] + s)[..|s|] == [c] + s[..|s| - 1];
    }
  }

  /** The bracket at `i` opens above the limit, in a text that starts at `depth`. */
  predicate OpensAbove(s: string, i: nat, depth: int, maxDepth: int)
    requires i < |s|
  {
    (s[i] == '[' || s[i] == '{') && depth + Unclosed(s[..i + 1]) > maxDepth
  }

  lemma OpensAboveLater(c: char, s: string, i: nat, depth: int, maxDepth: int)
    requires i < |s|
    ensures OpensAbove([c] + s, i + 1, depth, maxDepth) <==> OpensAbove(s, i, Next(Outside(depth), c).depth, maxDepth)
  {
    assert ([c] + s)[..i + 2] == [c] + s[..i + 1];
    UnclosedFront(c, s[..i + 1]);
  }

  lemma OpensAboveFirst(c: char, s: string, depth: int, maxDepth: int)
    ensures OpensAbove([c] + s, 0, depth, maxDepth) <==> (c == '[' || c == '{') && depth + 1 > maxDepth
  {
    assert ([c] + s)[..1] == [c] + "";
    UnclosedFront(c, "");
  }

  lemma {:induction false} ExceedsIff(depth: int, s: string, maxDepth: int)
    requires forall i :: 0 <= i < |s| ==> s[i] != '"'
    ensures Exceeds(Outside(depth), s, maxDepth) <==> exists i: nat :: i < |s| && OpensAbove(s, i, depth, maxDepth)
    decreases |s|
  {
    if s != "" {
      var c, rest := s[0], s[1..];
      var depth' := Next(Outside(depth), c).depth;
      assert s == [c] + rest;
      ExceedsIff(depth', rest, maxDepth);
      OpensAboveFirst(c, rest, depth, maxDepth);
      forall i: nat | i < |rest| ensures OpensAbove(s, i + 1, depth, maxDepth) <==> OpensAbove(rest, i, depth', maxDepth) {
        OpensAboveLater(c, rest, i, depth, maxDepth);
      }
      hide OpensAbove;
      if exists i: nat :: i < |s| && OpensAbove(s, i, depth, maxDepth) {
        var i: nat :| i < |s| && OpensAbove(s, i, depth, maxDepth);
        assert i > 0 ==> OpensAbove(rest, i - 1, depth', maxDepth);
      }
      if j: nat :| j < |rest| && OpensAbove(rest, j, depth', maxDepth) {
        assert OpensAbove(s, j + 1, depth, maxDepth);
      }
    }
  }

  /** On any text, the check raises exactly when, with the strings taken out, some bracket opens
      where more than `maxDepth` brackets have been opened and not closed; a closing bracket too
      many makes room for an opening one. */
  lemma RaisesIffUnclosed(t: string, maxDepth: int)
    ensures var s := Stripped(t);
            Exceeds(Outside(0), t, maxDepth) <==>
              exists i: nat :: i < |s| && OpensAbove(s, i, 0, maxDepth)
  {
    StringsDoNotCount(0, t, maxDepth);
    ExceedsIff(0, Stripped(t), maxDepth);
  }
}
