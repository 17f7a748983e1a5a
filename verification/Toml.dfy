/**
 TOML generation for provisioned agents
 (server/src/zaqorincore_server/api/v1/agents_provision.py:348-378), read back with a reader for
 the part of TOML v1.0.0 that it uses (sections "String", "Keys" and "Array of Tables").
 */
module TomlReader {
  import opened Hexadecimal
  import opened Wrappers

  /** A code point is a character unless it is a surrogate or out of range. */
  function CharOf(code: nat): Option<char> {
    if code < 0xD800 || 0xE000 <= code < 0x11_0000 then Some(code as char) else None
  }

  /** Control characters other than tab may not stand for themselves. */
  predicate Forbidden(c: char) { (c < ' ' && c != '\t') || c as int == 0x7F }

  function ShortEscape(c: char): Option<char> {
    if c == '"' || c == '\\' then Some(c)
    else if c == 'b' then Some(8 as char)
    else if c == 't' then Some('\t')
    else if c == 'n' then Some('\n')
    else if c == 'f' then Some(12 as char)
    else if c == 'r' then Some('\r')
    else None
  }

  datatype Chunk = Chunk(ch: char, rest: string)

  /** One character of a basic string, escaped or not. */
  function ReadChar(s: string): (r: Option<Chunk>)
    requires s != ""
    ensures r.Some? ==> |r.value.rest| < |s|
  {
    if s[0] != '\\' then (if Forbidden(s[0]) then None else Some(Chunk(s[0], s[1..])))
    else if |s| == 1 then None
    else
      var width := if s[1] == 'u' then 4 else if s[1] == 'U' then 8 else 0;
      if width == 0 then
        match ShortEscape(s[1])
        case None => None
        case Some(c) => Some(Chunk(c, s[2..]))
      else if |s| < 2 + width then None
      else match ReadHex(s[2..2 + width], 0)
        case None => None
        case Some(code) =>
          match CharOf(code)
          case None => None
          case Some(c) => Some(Chunk(c, s[2 + width..]))
  }

  datatype Body = Body(value: string, rest: string)

  /** The rest of a basic string, up to its closing quote. */
  function ReadBody(s: string): (r: Option<Body>)
    ensures r.Some? ==> |r.value.rest| < |s|
    decreases |s|
  {
    if s == "" then None
    else if s[0] == '"' then Some(Body("", s[1..]))
    else match ReadChar(s)
      case None => None
      case Some(chunk) =>
        match ReadBody(chunk.rest)
        case None => None
        case Some(body) => Some(Body([chunk.ch] + body.value, body.rest))
  }

  predicate BareChar(c: char) {
    'a' <= c <= 'z' || 'A' <= c <= 'Z' || '0' <= c <= '9' || c == '_' || c == '-'
  }

  predicate BareKey(k: string) { k != "" && forall i :: 0 <= i < |k| ==> BareChar(k[i]) }

  function ReadKey(s: string): (k: string)
    ensures |k| <= |s|
  {
    if s == "" || !BareChar(s[0]) then "" else [s[0]] + ReadKey(s[1..])
  }

  type Row = seq<(string, string)>

  predicate HasKey(row: Row, k: string) { exists i :: 0 <= i < |row| && row[i].0 == k }

  datatype Pair = Pair(key: string, value: string, rest: string)

  const ASSIGN := " = \""

  /** A line `key = "value"`. */
  function ReadPair(s: string): (r: Option<Pair>)
    ensures r.Some? ==> |r.value.rest| < |s|
  {
    var k := ReadKey(s);
    var s' := s[|k|..];
    if k == "" || !(ASSIGN <= s') then None
    else match ReadBody(s'[|ASSIGN|..])
      case None => None
      case Some(body) =>
        if body.rest != "" && body.rest[0] == '\n' then Some(Pair(k, body.value, body.rest[1..])) else None
  }

  const HEADER := "[[log_source]]\n"

  /** The tables of a document, after those in `done`. */
  function ReadDoc(s: string, done: seq<Row>): Option<seq<Row>>
    decreases |s|
  {
    if s == "" then Some(done)
    else if s[0] == '\n' then ReadDoc(s[1..], done)
    else if HEADER <= s then ReadDoc(s[|HEADER|..], done + [[]])
    else match ReadPair(s)
      case None => None
      case Some(pair) =>
        if done == [] || HasKey(done[|done| - 1], pair.key) then None
        else ReadDoc(pair.rest, done[..|done| - 1] + [done[|done| - 1] + [(pair.key, pair.value)]])
  }
}

module Toml {
  import opened Hexadecimal
  import opened Strings
  import opened TomlReader
  import opened Wrappers

  // ---- What is written ----

  function EscapeChar(c: char): string {
    if c == '\\' then "\\\\"
    else if c == '"' then "\\\""
    else if c < ' ' || c as int == 0x7F then "\\u" + Hex4(c as int)
    else [c]
  }

  function Escape(s: string): string {
    if s == "" then "" else EscapeChar(s[0]) + Escape(s[1..])
  }

  function Quote(s: string): string { "\"" + Escape(s) + "\"" }

  function PairText(p: (string, string)): string { p.0 + " = " + Quote(p.1) }

  function RowChunks(row: Row): seq<string> {
    if row == [] then [] else [PairText(row[0])] + RowChunks(row[1..])
  }

  function Chunks(rows: seq<Row>): seq<string> {
    if rows == [] then [] else ["\n[[log_source]]"] + RowChunks(rows[0]) + Chunks(rows[1..])
  }

  function Render(rows: seq<Row>): string {
    Join("\n", Chunks(rows)) + if Chunks(rows) != [] then "\n" else ""
  }

  lemma EscapeStep(s: string, i: nat)
    requires i < |s|
    ensures Escape(s[i..]) == EscapeChar(s[i]) + Escape(s[i + 1..])
  {
    assert s[i..][0] == s[i] && s[i..][1..] == s[i + 1..];
  }

  lemma RowChunksStep(row: Row, j: nat)
    requires j < |row|
    ensures RowChunks(row[j..]) == [PairText(row[j])] + RowChunks(row[j + 1..])
  {
    assert row[j..][0] == row[j] && row[j..][1..] == row[j + 1..];
  }

  lemma ChunksStep(rows: seq<Row>, i: nat)
    requires i < |rows|
    ensures Chunks(rows[i..]) == ["\n[[log_source]]"] + RowChunks(rows[i]) + Chunks(rows[i + 1..])
  {
    assert rows[i..][0] == rows[i] && rows[i..][1..] == rows[i + 1..];
  }

  lemma NothingLeft(v: string, row: Row, rows: seq<Row>)
    ensures Escape(v[|v|..]) == "" && RowChunks(row[|row|..]) == [] && Chunks(rows[|rows|..]) == []
    ensures v[0..] == v && row[0..] == row && rows[0..] == rows
  {
  }

  /** `_toml_quote` */
  method TomlQuote(value: string) returns (r: string)
    ensures r == Quote(value)
  {
    NothingLeft(value, [], []);
    hide Hex4, Escape;
    var out := "\"";
    for i := 0 to |value|
      invariant out + Escape(value[i..]) == "\"" + Escape(value)
    {
      EscapeStep(value, i);
      ghost var before := out;
      var ch := value[i];
      var cp := ch as int;
      if ch == '\\' {
        out := out + "\\\\";
      } else if ch == '"' {
        out := out + "\\\"";
      } else if cp < 0x20 || cp == 0x7F {
        out := out + "\\u" + Hex4(cp);
      } else {
        out := out + [ch];
      }
      assert out == before + EscapeChar(ch);
    }
    return out + "\"";
  }

  /** `_toml_array_of_tables` */
  method TomlArrayOfTables(rows: seq<Row>) returns (r: string)
    ensures r == Render(rows)
  {
    NothingLeft("", [], rows);
    hide Chunks, RowChunks, Join, Quote;
    var chunks: seq<string> := [];
    for i := 0 to |rows|
      invariant chunks + Chunks(rows[i..]) == Chunks(rows)
    {
      ChunksStep(rows, i);
      ghost var after := Chunks(rows[i + 1..]);
      var row := rows[i];
      NothingLeft("", row, []);
      chunks := chunks + ["\n[[log_source]]"];
      for j := 0 to |row|
        invariant chunks + RowChunks(row[j..]) + after == Chunks(rows)
      {
        RowChunksStep(row, j);
        var quoted := TomlQuote(row[j].1);
        chunks := chunks + [row[j].0 + " = " + quoted];
      }
    }
    assert chunks == Chunks(rows);
    return Join("\n", chunks) + if chunks != [] then "\n" else "";
  }

  // ---- What is escaped, and how ----

  /** Quotes and backslashes get a backslash, control characters four hexadecimal digits, and no
      other character is touched. */
  lemma EscapeCharIs(c: char)
    ensures EscapeChar(c) ==
            if c == '"' then ['\\', '"']
            else if c == '\\' then ['\\', '\\']
            else if 32 <= c as int && c as int != 127 then [c]
            else ['\\', 'u', '0', '0', HEX[c as int / 16], HEX[c as int % 16]]
  {
  }

  /** Each table is a blank line, the header and its pairs, one a line. */
  lemma {:induction false} RenderedLines(rows: seq<Row>, row: Row)
    ensures Chunks([row] + rows) == ["\n[[log_source]]"] + RowChunks(row) + Chunks(rows)
    ensures RowChunks([]) == [] && (row != [] ==> RowChunks(row) == [row[0].0 + " = \"" + Escape(row[0].1) + "\""] + RowChunks(row[1..]))
    ensures Render([]) == ""
  {
    assert ([row] + rows)[1..] == rows;
    hide Escape;
    assert row != [] ==> PairText(row[0]) == row[0].0 + " = \"" + Escape(row[0].1) + "\"";
  }

  // ---- Reading a quoted value back ----

  lemma CharReadsBack(c: char, rest: string)
    ensures EscapeChar(c)[0] != '"'
    ensures ReadChar(EscapeChar(c) + rest) == Some(Chunk(c, rest))
  {
    var s := EscapeChar(c) + rest;
    if c == '\\' || c == '"' {
      assert s[2..] == rest;
    } else if c < ' ' || c as int == 0x7F {
      HexReadsBack(c as int);
      hide Hex4, ReadHex;
      assert s[2..6] == Hex4(c as int) && s[6..] == rest;
    } else {
      assert s[1..] == rest;
    }
  }

  lemma {:induction false} EscapeReadsBack(v: string, rest: string)
    ensures ReadBody(Escape(v) + rest) ==
            match ReadBody(rest)
            case None => None
            case Some(body) => Some(Body(v + body.value, body.rest))
    decreases |v|
  {
    hide EscapeChar, ReadChar;
    if v == "" {
      assert Escape(v) + rest == rest;
      assert ReadBody(rest).Some? ==> "" + ReadBody(rest).value.value == ReadBody(rest).value.value;
    } else {
      var tail := Escape(v[1..]) + rest;
      assert Escape(v) + rest == EscapeChar(v[0]) + tail;
      CharReadsBack(v[0], tail);
      EscapeReadsBack(v[1..], rest);
      assert ReadBody(rest).Some? ==>
        [v[0]] + (v[1..] + ReadBody(rest).value.value) == v + ReadBody(rest).value.value;
    }
  }

  /** Whatever the value, its quoted form reads back as that value and stops at its own quote. */
  lemma QuoteReadsBack(v: string, rest: string)
    ensures ReadBody(Escape(v) + "\"" + rest) == Some(Body(v, rest))
  {
    var closing := "\"" + rest;
    assert closing[1..] == rest;
    assert ReadBody(closing) == Some(Body("", rest));
    hide ReadBody, Escape;
    EscapeReadsBack(v, closing);
    assert Escape(v) + "\"" + rest == Escape(v) + closing && v + "" == v;
  }

  predicate OneLine(s: string) { forall i :: 0 <= i < |s| ==> !(s[i] < ' ') && s[i] as int != 0x7F }

  lemma EscapeCharIsOneLine(c: char)
    ensures OneLine(EscapeChar(c))
  {
    if c < ' ' || c as int == 0x7F {
      Hex4IsOneLine(c as int);
      hide Hex4;
    }
  }

  lemma Hex4IsOneLine(n: nat)
    requires n < 0x1_0000
    ensures OneLine(Hex4(n))
  {
  }

  lemma {:induction false} EscapeIsOneLine(v: string)
    ensures OneLine(Escape(v))
    decreases |v|
  {
    hide EscapeChar;
    if v != "" {
      EscapeCharIsOneLine(v[0]);
      EscapeIsOneLine(v[1..]);
    }
  }

  /** No control character survives quoting, so a quoted value never spans a line. */
  lemma QuoteIsOneLine(v: string)
    ensures OneLine(Quote(v))
  {
    EscapeIsOneLine(v);
  }

  // ---- Reading the tables back ----

  /** What the join amounts to: every chunk on a line of its own. */
  function Lines(chunks: seq<string>): string {
    if chunks == [] then "" else chunks[0] + "\n" + Lines(chunks[1..])
  }

  lemma {:induction false} JoinIsLines(chunks: seq<string>)
    ensures Join("\n", chunks) + (if chunks != [] then "\n" else "") == Lines(chunks)
    decreases |chunks|
  {
    if |chunks| == 1 {
      assert Lines(chunks[1..]) == "";
    } else if chunks != [] {
      JoinIsLines(chunks[1..]);
    }
  }

  lemma {:induction false} LinesConcat(a: seq<string>, b: seq<string>)
    ensures Lines(a + b) == Lines(a) + Lines(b)
    decreases |a|
  {
    if a == [] {
      assert a + b == b;
    } else {
      LinesConcat(a[1..], b);
      assert (a + b)[1..] == a[1..] + b;
    }
  }

  lemma {:induction false} KeyReadsBack(k: string, rest: string)
    requires forall i :: 0 <= i < |k| ==> BareChar(k[i])
    requires rest == "" || !BareChar(rest[0])
    ensures ReadKey(k + rest) == k
    decreases |k|
  {
    if k == "" {
      assert k + rest == rest;
    } else {
      KeyReadsBack(k[1..], rest);
      assert (k + rest)[1..] == k[1..] + rest;
    }
  }

  lemma PairReadsBack(p: (string, string), rest: string)
    requires BareKey(p.0)
    ensures ReadPair(PairText(p) + "\n" + rest) == Some(Pair(p.0, p.1, rest))
  {
    var tail := Escape(p.1) + "\"" + ("\n" + rest);
    var s := PairText(p) + "\n" + rest;
    assert s == p.0 + (ASSIGN + tail);
    assert ReadKey(s) == p.0 by { KeyReadsBack(p.0, ASSIGN + tail); }
    hide ReadKey, ReadBody;
    assert s[|p.0|..] == ASSIGN + tail && (ASSIGN + tail)[|ASSIGN|..] == tail;
    QuoteReadsBack(p.1, "\n" + rest);
    assert ("\n" + rest)[1..] == rest;
  }

  predicate DistinctKeys(row: Row) { forall i, j :: 0 <= i < j < |row| ==> row[i].0 != row[j].0 }

  predicate Renderable(row: Row) { DistinctKeys(row) && forall i :: 0 <= i < |row| ==> BareKey(row[i].0) }

  lemma ReadDocPair(p: (string, string), rest: string, done: seq<Row>, row: Row)
    requires BareKey(p.0) && !HasKey(row, p.0)
    ensures ReadDoc(PairText(p) + "\n" + rest, done + [row]) == ReadDoc(rest, done + [row + [p]])
  {
    var s := PairText(p) + "\n" + rest;
    PairReadsBack(p, rest);
    assert s[0] == p.0[0];
    hide ReadPair, PairText;
    assert !(HEADER <= s) by { assert HEADER[0] == '['; }
    assert (done + [row])[..|done|] == done;
  }

  lemma RowLines(row: Row)
    requires row != []
    ensures Lines(RowChunks(row)) == PairText(row[0]) + "\n" + Lines(RowChunks(row[1..]))
  {
    assert RowChunks(row)[1..] == RowChunks(row[1..]);
  }

  lemma TableLines(rows: seq<Row>)
    requires rows != []
    ensures Lines(Chunks(rows)) == "\n" + HEADER + (Lines(RowChunks(rows[0])) + Lines(Chunks(rows[1..])))
  {
    var body := RowChunks(rows[0]) + Chunks(rows[1..]);
    assert Chunks(rows) == ["\n[[log_source]]"] + body;
    LinesConcat(["\n[[log_source]]"], body);
    LinesConcat(RowChunks(rows[0]), Chunks(rows[1..]));
    HeaderLine();
    hide Lines, Chunks, RowChunks;
  }

  lemma HeaderLine()
    ensures Lines(["\n[[log_source]]"]) == "\n" + HEADER
  {
    assert ["\n[[log_source]]"][1..] == [];
    assert Lines([]) == "";
    hide Lines;
  }

  lemma FirstKeyIsNew(row: Row, todo: Row)
    requires Renderable(row + todo) && todo != []
    ensures BareKey(todo[0].0) && !HasKey(row, todo[0].0)
  {
    assert (row + todo)[|row|] == todo[0];
    forall i | 0 <= i < |row| ensures row[i].0 != todo[0].0 {
      assert (row + todo)[i] == row[i];
    }
  }

  lemma RowTail(todo: Row, rest: string)
    requires todo != []
    ensures Lines(RowChunks(todo)) + rest == PairText(todo[0]) + "\n" + (Lines(RowChunks(todo[1..])) + rest)
  {
    RowLines(todo);
    hide *;
    Associative(PairText(todo[0]) + "\n", Lines(RowChunks(todo[1..])), rest);
  }

  lemma RowMoved(row: Row, todo: Row)
    ensures todo == [] ==> row + todo == row && Lines(RowChunks(todo)) == ""
    ensures todo != [] ==> row + [todo[0]] + todo[1..] == row + todo
  {
  }

  lemma {:induction false} ReadDocRow(todo: Row, rest: string, done: seq<Row>, row: Row)
    requires Renderable(row + todo)
    ensures ReadDoc(Lines(RowChunks(todo)) + rest, done + [row]) == ReadDoc(rest, done + [row + todo])
    decreases |todo|
  {
    hide *;
    RowMoved(row, todo);
    if todo == [] {
      assert "" + rest == rest;
    } else {
      FirstKeyIsNew(row, todo);
      RowTail(todo, rest);
      ReadDocPair(todo[0], Lines(RowChunks(todo[1..])) + rest, done, row);
      ReadDocRow(todo[1..], rest, done, row + [todo[0]]);
    }
  }

  lemma ReadDocHeader(rest: string, done: seq<Row>)
    ensures ReadDoc("\n" + HEADER + rest, done) == ReadDoc(rest, done + [[]])
  {
    var s := "\n" + HEADER + rest;
    assert s[1..] == HEADER + rest && (HEADER + rest)[|HEADER|..] == rest;
    assert (HEADER + rest)[0] == '[';
    assert HEADER <= HEADER + rest;
  }

  lemma ReadDocTable(row: Row, tail: string, done: seq<Row>)
    requires Renderable(row)
    ensures ReadDoc("\n" + HEADER + (Lines(RowChunks(row)) + tail), done) == ReadDoc(tail, done + [row])
  {
    hide ReadDoc, RowChunks, Lines, Renderable;
    ReadDocHeader(Lines(RowChunks(row)) + tail, done);
    assert [] + row == row;
    ReadDocRow(row, tail, done, []);
  }

  lemma NoTables(done: seq<Row>)
    ensures ReadDoc(Lines(Chunks([])), done) == Some(done)
  {
  }

  lemma {:induction false} ReadDocRows(rows: seq<Row>, done: seq<Row>)
    requires forall i :: 0 <= i < |rows| ==> Renderable(rows[i])
    ensures ReadDoc(Lines(Chunks(rows)), done) == Some(done + rows)
    decreases |rows|
  {
    NoTables(done);
    hide ReadDoc, Chunks, RowChunks, Lines, Renderable;
    if rows == [] {
      assert done + rows == done;
    } else {
      TableLines(rows);
      ReadDocTable(rows[0], Lines(Chunks(rows[1..])), done);
      ReadDocRows(rows[1..], done + [rows[0]]);
      assert done + [rows[0]] + rows[1..] == done + rows;
    }
  }

  /** For every list of tables with bare, distinct keys, reading what was rendered gives the
      tables back: same order, same keys, same values, whatever the values contain. */
  lemma TablesReadBack(rows: seq<Row>)
    requires forall i :: 0 <= i < |rows| ==> Renderable(rows[i])
    ensures ReadDoc(Render(rows), []) == Some(rows)
  {
    JoinIsLines(Chunks(rows));
    ReadDocRows(rows, []);
    assert [] + rows == rows;
  }
}
