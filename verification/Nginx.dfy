/**
 The nginx access-log parser (agent/pkg/webtail/webtail.go:86-243), against the combined format
 that it reads.
 */
module NginxModel {
  import opened Strings
  import opened Wrappers

  function TrimLeftSpaces(s: string): string {
    if s != "" && s[0] == ' ' then TrimLeftSpaces(s[1..]) else s
  }

  function TrimRightNewlines(s: string): string {
    if s != "" && (s[|s| - 1] == '\r' || s[|s| - 1] == '\n') then TrimRightNewlines(s[..|s| - 1]) else s
  }

  /** `strings.TrimPrefix(s, " ")` */
  function DropSpace(s: string): string {
    if s != "" && s[0] == ' ' then s[1..] else s
  }

  // ---- strconv.Atoi on 64 bits ----

  predicate Atoi(s: string) {
    if s != "" && (s[0] == '-' || s[0] == '+') then
      s[1..] != "" && AllDigits(s[1..]) && NatOf(s[1..]) < 0x8000_0000_0000_0000 + if s[0] == '-' then 1 else 0
    else
      s != "" && AllDigits(s) && NatOf(s) < 0x8000_0000_0000_0000
  }

  // ---- The parser, field by field ----

  type Fields = map<string, string>

  /** `Panics` is the slice expression running past the end of the line. */
  datatype Outcome = NotRecognised | Panics | Recognised(fields: Fields)

  /** Fields 1 to 3: the address, the user, and what follows the time. */
  datatype Head = Head(address: string, user: string, rest: string)

  function ParseHead(line: string): Option<Head> {
    match CutAt(line, ' ')
    case None => None
    case Some(first) =>
      match CutAt(first.after, '-')
      case None => None
      case Some(dash) => ParseUser(first.before, TrimLeftSpaces(dash.after))
  }

  /** The user and the bracketed time. */
  function ParseUser(address: string, s: string): Option<Head> {
    match CutAt(s, ' ')
    case None => None
    case Some(user) =>
      if user.after == "" || user.after[0] != '[' then None
      else match CutAt(user.after, ']')
        case None => None
        case Some(time) => Some(Head(address, user.before, DropSpace(time.after)))
  }

  /** A quoted token at the head of `s`: its contents, and what is left. */
  function Quoted(s: string): Cut {
    if s == "" || s[0] != '"' then Cut("", s)
    else match CutAt(s[1..], '"')
      case None => Cut("", s)
      case Some(cut) => Cut(cut.before, DropSpace(cut.after))
  }

  function Dashless(s: string): string { if s == "-" then "" else s }

  function FieldMap(address: string, user: string, httpMethod: string, uri: string, status: string, bytes: string,
                    referer: string, agent: string): Fields {
    var required := map["http_method" := httpMethod, "uri" := uri, "status_code" := status, "bytes_sent" := bytes];
    var a := if address != "-" then map["src_ip" := address] else map[];
    var u := if user != "-" then map["auth_user" := user] else map[];
    var r := if referer != "" then map["referer" := referer] else map[];
    var g := if agent != "" then map["user_agent" := agent] else map[];
    a + u + required + r + g
  }

  /** Fields 5 to 8, after the request. */
  function ParseTail(h: Head, httpMethod: string, uri: string, rest: string): (r: Outcome)
    ensures !r.Panics?
  {
    match CutAt(rest, ' ')
    case None => NotRecognised
    case Some(status) =>
      if !Atoi(status.before) then NotRecognised
      else match CutAt(status.after, ' ')
        case None => NotRecognised
        case Some(bytes) =>
          if !Atoi(bytes.before) then NotRecognised
          else
            var referer := Quoted(bytes.after);
            var agent := Quoted(referer.after);
            Recognised(FieldMap(h.address, h.user, httpMethod, uri, status.before, bytes.before,
                                Dashless(referer.before), Dashless(agent.before)))
  }

  /** Field 4, the quoted request, and the rest. */
  function ParseRequest(h: Head): Outcome {
    if h.rest == "" || h.rest[0] != '"' then NotRecognised
    else match CutAt(h.rest[1..], '"')
      case None => NotRecognised
      case Some(request) =>
        if request.after == "" then Panics
        else if request.after[1..] == "" then NotRecognised
        else match CutAt(request.before, ' ')
          case None => NotRecognised
          case Some(verb) =>
            match CutAt(verb.after, ' ')
            case None => NotRecognised
            case Some(uri) => ParseTail(h, verb.before, uri.before, request.after[1..])
  }

  function Parse(raw: string): Outcome {
    match ParseHead(TrimRightNewlines(raw))
    case None => NotRecognised
    case Some(h) => ParseRequest(h)
  }

  // ---- The combined format ----

  datatype Record = Record(address: string, user: string, time: string, httpMethod: string, uri: string,
                           protocol: string, status: string, bytes: string, referer: string, agent: string)

  /** The text between the address and the request. */
  function Prefix(r: Record): string {
    r.address + (" - " + (r.user + (" [" + (r.time + "] "))))
  }

  function Request(r: Record): string {
    r.httpMethod + (" " + (r.uri + (" " + r.protocol)))
  }

  function Suffix(r: Record): string {
    r.status + (" " + (r.bytes + (" \"" + (r.referer + ("\" \"" + (r.agent + "\""))))))
  }

  function Print(r: Record): string {
    Prefix(r) + ("\"" + (Request(r) + ("\" " + Suffix(r))))
  }

  /** Every field is free of its own delimiters. */
  predicate Printable(r: Record) {
    && Lacks(r.address, ' ')
    && r.user != "" && Lacks(r.user, ' ')
    && Lacks(r.time, ']')
    && Lacks(r.httpMethod, ' ') && Lacks(r.httpMethod, '"')
    && Lacks(r.uri, ' ') && Lacks(r.uri, '"')
    && Lacks(r.protocol, '"')
    && Atoi(r.status)
    && Atoi(r.bytes)
    && Lacks(r.referer, '"')
    && Lacks(r.agent, '"')
  }

  // ---- Pieces that are put together read back ----

  lemma LacksNothing(c: char)
    ensures Lacks("", c)
  {
  }

  lemma LacksFirst(s: string, c: char)
    requires Lacks(s, c) && s != ""
    ensures s[0] != c
  {
  }

  lemma LacksPrepended(first: char, s: string, c: char)
    requires first != c
    ensures Lacks([first] + s, c) <==> Lacks(s, c)
  {
    assert forall i :: 0 <= i < |s| ==> ([first] + s)[i + 1] == s[i];
  }

  predicate Spaces(s: string) { forall i :: 0 <= i < |s| ==> s[i] == ' ' }

  lemma {:induction false} TrimSpaces(spaces: string, s: string)
    requires Spaces(spaces) && (s == "" || s[0] != ' ')
    ensures TrimLeftSpaces(spaces + s) == s
    decreases |spaces|
  {
    if spaces == "" {
      assert spaces + s == s;
    } else {
      assert (spaces + s)[1..] == spaces[1..] + s;
      TrimSpaces(spaces[1..], s);
    }
  }

  /** The gap after the time is one space, or nothing if no space follows. */
  predicate Gap(gap: string, rest: string) { gap == " " || (gap == "" && (rest == "" || rest[0] != ' ')) }

  lemma GapDropped(gap: string, rest: string)
    requires Gap(gap, rest)
    ensures DropSpace(gap + rest) == rest
  {
    assert gap == "" ==> gap + rest == rest;
    assert gap == " " ==> (gap + rest)[1..] == rest;
  }

  /** The text from the user on. */
  function UserText(user: string, time: string, gap: string, rest: string): string {
    user + (" " + ("[" + (time + ("]" + (gap + rest)))))
  }

  lemma UserReadsBack(address: string, user: string, time: string, gap: string, rest: string)
    requires Lacks(user, ' ') && Lacks(time, ']') && Gap(gap, rest)
    ensures ParseUser(address, UserText(user, time, gap, rest)) == Some(Head(address, user, rest))
  {
    hide CutAt, Lacks, Gap;
    var text := "[" + (time + ("]" + (gap + rest)));
    CutLaw(user, ' ', text);
    LacksPrepended('[', time, ']');
    assert text == ("[" + time) + ("]" + (gap + rest));
    CutLaw("[" + time, ']', gap + rest);
    GapDropped(gap, rest);
  }

  /** The fields before the request: an address, anything up to a dash, spaces, user and time. */
  predicate HeadParts(address: string, ident: string, spaces: string, user: string, time: string, gap: string, rest: string) {
    && Lacks(address, ' ') && Lacks(ident, '-') && Spaces(spaces) && user != "" && Lacks(user, ' ')
    && Lacks(time, ']') && Gap(gap, rest)
  }

  function HeadText(address: string, ident: string, spaces: string, user: string, time: string, gap: string, rest: string): string {
    address + (" " + (ident + ("-" + (spaces + UserText(user, time, gap, rest)))))
  }

  lemma HeadReads(address: string, ident: string, spaces: string, user: string, time: string, gap: string, rest: string)
    requires HeadParts(address, ident, spaces, user, time, gap, rest)
    ensures ParseHead(HeadText(address, ident, spaces, user, time, gap, rest)) == Some(Head(address, user, rest))
  {
    LacksFirst(user, ' ');
    hide CutAt, Lacks, ParseUser, TrimLeftSpaces, Gap, Spaces;
    var text := UserText(user, time, gap, rest);
    assert text[0] == user[0];
    hide UserText;
    CutLaw(address, ' ', ident + ("-" + (spaces + text)));
    CutLaw(ident, '-', spaces + text);
    TrimSpaces(spaces, text);
    UserReadsBack(address, user, time, gap, rest);
  }

  lemma HeadReadsBack(r: Record, rest: string)
    requires Printable(r) && rest != ""
    ensures ParseHead(Prefix(r) + rest) == Some(Head(r.address, r.user, rest))
  {
    LacksNothing('-');
    hide ParseHead, Lacks, Atoi;
    HeadReads(r.address, "", " ", r.user, r.time, " ", rest);
    assert Prefix(r) + rest == HeadText(r.address, "", " ", r.user, r.time, " ", rest);
  }

  lemma AtoiLacksSpace(s: string)
    requires Atoi(s)
    ensures Lacks(s, ' ')
  {
  }

  lemma QuotedReadsBack(s: string, rest: string)
    requires Lacks(s, '"')
    ensures Quoted("\"" + (s + ("\"" + rest))) == Cut(s, DropSpace(rest))
  {
    CutLaw(s, '"', rest);
    assert ("\"" + (s + ("\"" + rest)))[1..] == s + ("\"" + rest);
  }

  lemma TailReads(h: Head, httpMethod: string, uri: string, status: string, bytes: string, text: string)
    requires Atoi(status) && Atoi(bytes)
    ensures ParseTail(h, httpMethod, uri, status + (" " + (bytes + (" " + text))))
         == Recognised(FieldMap(h.address, h.user, httpMethod, uri, status, bytes,
                                Dashless(Quoted(text).before), Dashless(Quoted(Quoted(text).after).before)))
  {
    AtoiLacksSpace(status);
    AtoiLacksSpace(bytes);
    hide CutAt, Lacks, Atoi, FieldMap, Quoted;
    CutLaw(status, ' ', bytes + (" " + text));
    CutLaw(bytes, ' ', text);
  }

  lemma TailReadsBack(r: Record, h: Head)
    requires Printable(r)
    ensures ParseTail(h, r.httpMethod, r.uri, Suffix(r)) ==
            Recognised(FieldMap(h.address, h.user, r.httpMethod, r.uri, r.status, r.bytes, Dashless(r.referer), Dashless(r.agent)))
  {
    hide CutAt, Lacks, Atoi, FieldMap, Quoted, ParseTail;
    var agent := "\"" + (r.agent + ("\"" + ""));
    var referer := "\"" + (r.referer + ("\"" + (" " + agent)));
    assert Suffix(r) == r.status + (" " + (r.bytes + (" " + referer)));
    TailReads(h, r.httpMethod, r.uri, r.status, r.bytes, referer);
    QuotedReadsBack(r.referer, " " + agent);
    assert DropSpace(" " + agent) == agent;
    QuotedReadsBack(r.agent, "");
  }

  /** A quoted request of three words, and one more character before the rest. */
  predicate RequestParts(verb: string, uri: string, protocol: string, rest: string) {
    && Lacks(verb, ' ') && Lacks(verb, '"') && Lacks(uri, ' ') && Lacks(uri, '"') && Lacks(protocol, '"') && rest != ""
  }

  function RequestText(verb: string, uri: string, protocol: string, sep: char, rest: string): string {
    "\"" + ((verb + (" " + (uri + (" " + protocol)))) + ("\"" + ([sep] + rest)))
  }

  lemma RequestReads(h: Head, verb: string, uri: string, protocol: string, sep: char, rest: string)
    requires RequestParts(verb, uri, protocol, rest) && h.rest == RequestText(verb, uri, protocol, sep, rest)
    ensures ParseRequest(h) == ParseTail(h, verb, uri, rest)
  {
    var request := verb + (" " + (uri + (" " + protocol)));
    assert Lacks(request, '"');
    hide Lacks, ParseTail;
    assert h.rest[1..] == request + ("\"" + ([sep] + rest));
    CutLaw(request, '"', [sep] + rest);
    assert ([sep] + rest)[1..] == rest;
    CutLaw(verb, ' ', uri + (" " + protocol));
    CutLaw(uri, ' ', protocol);
    hide CutAt;
  }

  lemma RequestReadsBack(r: Record, h: Head)
    requires Printable(r) && h.rest == "\"" + (Request(r) + ("\" " + Suffix(r)))
    ensures ParseRequest(h) == ParseTail(h, r.httpMethod, r.uri, Suffix(r))
  {
    hide Lacks, Atoi, ParseTail, ParseRequest;
    var suffix := Suffix(r);
    assert suffix != "";
    hide Suffix;
    assert "\" " + suffix == "\"" + ([' '] + suffix);
    RequestReads(h, r.httpMethod, r.uri, r.protocol, ' ', suffix);
  }

  lemma RequestLacksQuote(r: Record)
    requires Printable(r)
    ensures Lacks(Request(r), '"')
  {
  }

  lemma {:induction false} TrimLaw(s: string, newlines: string)
    requires s != "" && s[|s| - 1] !in {'\r', '\n'}
    requires forall i :: 0 <= i < |newlines| ==> newlines[i] in {'\r', '\n'}
    ensures TrimRightNewlines(s + newlines) == s
    decreases |newlines|
  {
    if newlines == "" {
      assert s + newlines == s;
    } else {
      TrimLaw(s, newlines[..|newlines| - 1]);
      assert (s + newlines)[..|s + newlines| - 1] == s + newlines[..|newlines| - 1];
    }
  }

  /** A printed record, whatever newline characters follow it, parses to its own fields; a dash
      stands for an absent address, user, referer or agent, and an empty referer or agent is
      absent too. */
  lemma RoundTrip(r: Record, newlines: string)
    requires Printable(r)
    requires forall i :: 0 <= i < |newlines| ==> newlines[i] in {'\r', '\n'}
    ensures Parse(Print(r) + newlines) ==
            Recognised(FieldMap(r.address, r.user, r.httpMethod, r.uri, r.status, r.bytes, Dashless(r.referer), Dashless(r.agent)))
  {
    var rest := "\"" + (Request(r) + ("\" " + Suffix(r)));
    PrintEnd(r);
    TrimLaw(Print(r), newlines);
    HeadReadsBack(r, rest);
    var h := Head(r.address, r.user, rest);
    RequestReadsBack(r, h);
    TailReadsBack(r, h);
    hide ParseHead, ParseRequest, ParseTail, FieldMap, Printable, TrimRightNewlines, Prefix, Request, Suffix;
  }

  lemma PrintEnd(r: Record)
    ensures Print(r) != "" && Print(r)[|Print(r)| - 1] == '"'
  {
    assert Suffix(r)[|Suffix(r)| - 1] == '"';
    hide Suffix, Prefix, Request;
  }

  lemma NoOtherKeys(address: string, user: string, httpMethod: string, uri: string, status: string, bytes: string,
                    referer: string, agent: string)
    ensures FieldMap(address, user, httpMethod, uri, status, bytes, referer, agent).Keys
         <= {"src_ip", "auth_user", "http_method", "uri", "status_code", "bytes_sent", "referer", "user_agent"}
  {
  }

  /** Which keys the map has: an address or user that is a dash is absent, and so is a referer or
      agent that is empty. */
  lemma KeysOfFieldMap(address: string, user: string, httpMethod: string, uri: string, status: string, bytes: string,
                       referer: string, agent: string)
    ensures var m := FieldMap(address, user, httpMethod, uri, status, bytes, referer, agent);
            && ("src_ip" in m <==> address != "-") && ("src_ip" in m ==> m["src_ip"] == address)
            && ("auth_user" in m <==> user != "-") && ("auth_user" in m ==> m["auth_user"] == user)
            && ("referer" in m <==> referer != "") && ("referer" in m ==> m["referer"] == referer)
            && ("user_agent" in m <==> agent != "") && ("user_agent" in m ==> m["user_agent"] == agent)
            && "http_method" in m && m["http_method"] == httpMethod
            && "uri" in m && m["uri"] == uri
            && "status_code" in m && m["status_code"] == status
            && "bytes_sent" in m && m["bytes_sent"] == bytes
  {
  }

  // ---- Exactly which lines are recognised ----

  /** A decimal number with an optional sign that fits in 64 bits. */
  ghost predicate Number(s: string) {
    exists digits ::
      && digits != "" && AllDigits(digits)
      && ((s == digits && NatOf(digits) <= 9_223_372_036_854_775_807)
          || (s == "+" + digits && NatOf(digits) <= 9_223_372_036_854_775_807)
          || (s == "-" + digits && NatOf(digits) <= 9_223_372_036_854_775_808))
  }

  lemma AtoiIff(s: string)
    ensures Atoi(s) <==> Number(s)
  {
    if Atoi(s) {
      var digits := if s[0] == '-' || s[0] == '+' then s[1..] else s;
      assert s == digits || s == [s[0]] + digits;
    }
    if Number(s) {
      var digits :| digits != "" && AllDigits(digits) && (s == digits || s == "+" + digits || s == "-" + digits)
                    && (s == digits || s == "+" + digits ==> NatOf(digits) <= 9_223_372_036_854_775_807)
                    && (s == "-" + digits ==> NatOf(digits) <= 9_223_372_036_854_775_808);
      assert IsDigit(digits[0]);
      assert s != digits ==> s[1..] == digits;
    }
  }

  /** The token at the head of `s` is the text between two quotes, and one space after it is
      dropped; there is none if the first character is no quote or no other quote follows. */
  lemma QuotedIs(s: string)
    ensures var q := Quoted(s);
            || ((s == "" || s[0] != '"' || Lacks(s[1..], '"')) && q == Cut("", s))
            || exists rest :: s == "\"" + (q.before + ("\"" + rest)) && Lacks(q.before, '"')
                              && q.after == if rest != "" && rest[0] == ' ' then rest[1..] else rest
  {
    if s != "" && s[0] == '"' {
      CutConverse(s[1..], '"');
      assert s == "\"" + s[1..];
    }
    hide CutAt;
  }

  lemma {:induction false} SpacesTrimmed(s: string) returns (spaces: string)
    ensures Spaces(spaces) && s == spaces + TrimLeftSpaces(s)
    ensures TrimLeftSpaces(s) == "" || TrimLeftSpaces(s)[0] != ' '
    decreases |s|
  {
    if s != "" && s[0] == ' ' {
      spaces := SpacesTrimmed(s[1..]);
      spaces := " " + spaces;
      assert s == " " + s[1..];
    } else {
      spaces := "";
      assert s == spaces + s;
    }
  }

  lemma {:induction false} NewlinesTrimmed(s: string) returns (newlines: string)
    ensures s == TrimRightNewlines(s) + newlines && forall i :: 0 <= i < |newlines| ==> newlines[i] in {'\r', '\n'}
    ensures TrimRightNewlines(s) == "" || TrimRightNewlines(s)[|TrimRightNewlines(s)| - 1] !in {'\r', '\n'}
    decreases |s|
  {
    if s != "" && (s[|s| - 1] == '\r' || s[|s| - 1] == '\n') {
      newlines := NewlinesTrimmed(s[..|s| - 1]);
      newlines := newlines + [s[|s| - 1]];
      assert s == s[..|s| - 1] + [s[|s| - 1]];
    } else {
      newlines := "";
      assert s == s + newlines;
    }
  }

  /** What precedes the closing bracket of a text that starts with an opening one. */
  lemma TimeTaken(before: string, after: string) returns (time: string)
    requires (before + ("]" + after))[0] == '[' && Lacks(before, ']')
    ensures before == "[" + time && Lacks(time, ']')
  {
    time := if before == "" then "" else before[1..];
    assert before == "[" + time;
    LacksPrepended('[', time, ']');
  }

  lemma GapTaken(s: string) returns (gap: string)
    ensures Gap(gap, DropSpace(s)) && s == gap + DropSpace(s)
  {
    gap := if s != "" && s[0] == ' ' then " " else "";
  }

  lemma UserTextIs(user: string, time: string, gap: string, rest: string, after: string)
    requires after == ("[" + time) + ("]" + (gap + rest))
    ensures user + (" " + after) == UserText(user, time, gap, rest)
  {
    assert after == "[" + (time + ("]" + (gap + rest)));
  }

  lemma UserParts(address: string, s: string) returns (time: string, gap: string)
    requires ParseUser(address, s).Some?
    ensures var h := ParseUser(address, s).value;
            && h.address == address && Lacks(h.user, ' ') && Lacks(time, ']') && Gap(gap, h.rest)
            && s == UserText(h.user, time, gap, h.rest)
  {
    CutConverse(s, ' ');
    var user := CutAt(s, ' ').value;
    CutConverse(user.after, ']');
    var cut := CutAt(user.after, ']').value;
    assert ParseUser(address, s) == Some(Head(address, user.before, DropSpace(cut.after)));
    assert user.after != "" && user.after[0] == '[';
    hide ParseUser, CutAt, Lacks, Gap, DropSpace, UserText;
    gap := GapTaken(cut.after);
    time := TimeTaken(cut.before, cut.after);
    UserTextIs(user.before, time, gap, DropSpace(cut.after), user.after);
  }

  lemma HeadPartsOf(line: string) returns (ident: string, spaces: string, time: string, gap: string)
    requires ParseHead(line).Some?
    ensures var h := ParseHead(line).value;
            && HeadParts(h.address, ident, spaces, h.user, time, gap, h.rest)
            && line == HeadText(h.address, ident, spaces, h.user, time, gap, h.rest)
  {
    CutConverse(line, ' ');
    var first := CutAt(line, ' ').value;
    CutConverse(first.after, '-');
    var dash := CutAt(first.after, '-').value;
    hide CutAt, ParseUser, Lacks, Gap, Spaces, TrimLeftSpaces;
    ident := dash.before;
    var s := TrimLeftSpaces(dash.after);
    spaces := SpacesTrimmed(dash.after);
    time, gap := UserParts(first.before, s);
    var user := ParseUser(first.before, s).value.user;
    assert s[0] == if user == "" then ' ' else user[0];
    hide UserText;
  }

  lemma ThreeWords(request: string) returns (verb: string, uri: string, protocol: string)
    requires CutAt(request, ' ').Some? && CutAt(CutAt(request, ' ').value.after, ' ').Some?
    ensures verb == CutAt(request, ' ').value.before && uri == CutAt(CutAt(request, ' ').value.after, ' ').value.before
    ensures Lacks(verb, ' ') && Lacks(uri, ' ') && request == verb + (" " + (uri + (" " + protocol)))
  {
    CutConverse(request, ' ');
    var first := CutAt(request, ' ').value;
    CutConverse(first.after, ' ');
    hide CutAt, Lacks;
    var second := CutAt(first.after, ' ').value;
    verb, uri, protocol := first.before, second.before, second.after;
  }

  lemma RequestPartsOf(h: Head) returns (verb: string, uri: string, protocol: string, sep: char, rest: string)
    requires ParseRequest(h).Recognised?
    ensures RequestParts(verb, uri, protocol, rest) && h.rest == RequestText(verb, uri, protocol, sep, rest)
    ensures ParseRequest(h) == ParseTail(h, verb, uri, rest)
  {
    hide CutAt, ParseTail, Lacks;
    CutConverse(h.rest[1..], '"');
    var request := CutAt(h.rest[1..], '"').value;
    verb, uri, protocol := ThreeWords(request.before);
    sep, rest := request.after[0], request.after[1..];
    PartsLack(verb, uri, protocol);
    assert request.after == [sep] + rest;
    assert h.rest == "\"" + h.rest[1..];
  }

  lemma PartsLack(verb: string, uri: string, protocol: string)
    ensures Lacks(verb + (" " + (uri + (" " + protocol))), '"') ==>
      Lacks(verb, '"') && Lacks(uri, '"') && Lacks(protocol, '"')
  {
    var s := verb + (" " + (uri + (" " + protocol)));
    assert forall i :: 0 <= i < |verb| ==> s[i] == verb[i];
    assert forall i :: 0 <= i < |uri| ==> s[|verb| + 1 + i] == uri[i];
    assert forall i :: 0 <= i < |protocol| ==> s[|verb| + 1 + |uri| + 1 + i] == protocol[i];
  }

  lemma TailPartsOf(h: Head, httpMethod: string, uri: string, rest: string) returns (status: string, bytes: string, text: string)
    requires ParseTail(h, httpMethod, uri, rest).Recognised?
    ensures Atoi(status) && Atoi(bytes) && rest == status + (" " + (bytes + (" " + text)))
  {
    CutConverse(rest, ' ');
    var first := CutAt(rest, ' ').value;
    CutConverse(first.after, ' ');
    var second := CutAt(first.after, ' ').value;
    status, bytes, text := first.before, second.before, second.after;
    hide CutAt, Atoi, Quoted, FieldMap;
  }

  /** The pieces of a line. */
  datatype Line = Line(address: string, ident: string, spaces: string, user: string, time: string, gap: string,
                       verb: string, uri: string, protocol: string, sep: char, status: string, bytes: string, text: string)

  function LineText(l: Line): string {
    var rest := l.status + (" " + (l.bytes + (" " + l.text)));
    HeadText(l.address, l.ident, l.spaces, l.user, l.time, l.gap, RequestText(l.verb, l.uri, l.protocol, l.sep, rest))
  }

  ghost predicate Shaped(l: Line) {
    && HeadParts(l.address, l.ident, l.spaces, l.user, l.time, l.gap, "\"")
    && RequestParts(l.verb, l.uri, l.protocol, " ")
    && Number(l.status) && Number(l.bytes)
  }

  function LineFields(l: Line): Fields {
    FieldMap(l.address, l.user, l.verb, l.uri, l.status, l.bytes,
             Dashless(Quoted(l.text).before), Dashless(Quoted(Quoted(l.text).after).before))
  }

  lemma ShapedIsRecognised(l: Line)
    requires Shaped(l)
    ensures var h := ParseHead(LineText(l));
            h.Some? && ParseRequest(h.value) == Recognised(LineFields(l))
  {
    AtoiIff(l.status);
    AtoiIff(l.bytes);
    var rest := l.status + (" " + (l.bytes + (" " + l.text)));
    assert rest != "";
    var request := RequestText(l.verb, l.uri, l.protocol, l.sep, rest);
    assert request[0] == '"';
    hide Lacks, Atoi, Number, ParseHead, ParseRequest, ParseTail, HeadText, RequestText, FieldMap, Quoted, Dashless, Spaces;
    HeadReads(l.address, l.ident, l.spaces, l.user, l.time, l.gap, request);
    var h := Head(l.address, l.user, request);
    RequestReads(h, l.verb, l.uri, l.protocol, l.sep, rest);
    TailReads(h, l.verb, l.uri, l.status, l.bytes, l.text);
  }

  lemma RecognisedIsShaped(line: string, h: Head) returns (l: Line)
    requires ParseHead(line) == Some(h) && ParseRequest(h).Recognised?
    ensures Shaped(l) && line == LineText(l)
  {
    hide Lacks, Atoi, Number, ParseHead, ParseRequest, ParseTail, HeadText, RequestText, Spaces;
    var ident, spaces, time, gap := HeadPartsOf(line);
    var verb, uri, protocol, sep, rest := RequestPartsOf(h);
    var status, bytes, text := TailPartsOf(h, verb, uri, rest);
    AtoiIff(status);
    AtoiIff(bytes);
    l := Line(h.address, ident, spaces, h.user, time, gap, verb, uri, protocol, sep, status, bytes, text);
    RequestStarts(verb, uri, protocol, sep, rest);
  }

  lemma RequestStarts(verb: string, uri: string, protocol: string, sep: char, rest: string)
    ensures RequestText(verb, uri, protocol, sep, rest) != "" && RequestText(verb, uri, protocol, sep, rest)[0] == '"'
  {
  }

  /** A line is recognised exactly when, apart from newlines at its end, it is put together from
      pieces of this shape, and its fields are then those of the pieces. */
  lemma RecognisedIff(raw: string, fields: Fields)
    ensures Parse(raw) == Recognised(fields)
       <==> exists l :: Shaped(l) && TrimRightNewlines(raw) == LineText(l) && fields == LineFields(l)
  {
    hide Shaped, LineText, LineFields, TrimRightNewlines, ParseHead, ParseRequest;
    var line := TrimRightNewlines(raw);
    if Parse(raw) == Recognised(fields) {
      var l := RecognisedIsShaped(line, ParseHead(line).value);
      ShapedIsRecognised(l);
    }
    forall l | Shaped(l) && line == LineText(l) && fields == LineFields(l) ensures Parse(raw) == Recognised(fields) {
      ShapedIsRecognised(l);
    }
  }

  // ---- The panic ----

  /** The request opens with a quote and closes with the last character of the line. */
  predicate EndsAtRequest(rest: string) {
    |rest| >= 2 && rest[0] == '"' && rest[|rest| - 1] == '"' && Lacks(rest[1..|rest| - 1], '"')
  }

  lemma RequestPanicsIff(h: Head)
    ensures ParseRequest(h) == Panics <==> EndsAtRequest(h.rest)
  {
    hide ParseTail;
    if h.rest != "" && h.rest[0] == '"' {
      CutConverse(h.rest[1..], '"');
      if EndsAtRequest(h.rest) {
        var body := h.rest[1..|h.rest| - 1];
        CutLaw(body, '"', "");
        assert h.rest[1..] == body + (['"'] + "");
      }
      hide CutAt;
    }
  }

  /** The parser panics exactly on the lines with well-formed head fields whose request closes
      with the last character. */
  lemma PanicsIff(raw: string)
    ensures Parse(raw) == Panics <==>
      var head := ParseHead(TrimRightNewlines(raw)); head.Some? && EndsAtRequest(head.value.rest)
  {
    var head := ParseHead(TrimRightNewlines(raw));
    if head.Some? {
      RequestPanicsIff(head.value);
    }
    hide ParseHead, TrimRightNewlines, ParseRequest;
  }

  lemma EndsAtRequestText(request: string)
    requires Lacks(request, '"')
    ensures EndsAtRequest("\"" + (request + "\""))
  {
    var rest := "\"" + (request + "\"");
    assert rest[1..|rest| - 1] == request;
    hide Lacks;
  }

  lemma NoNewlines(line: string)
    requires line != "" && line[|line| - 1] == '"'
    ensures TrimRightNewlines(line) == line
  {
  }

  /** A record that is cut off right after its request does that. */
  lemma TruncatedRecordPanics(r: Record)
    requires Printable(r)
    ensures Parse(Prefix(r) + ("\"" + (Request(r) + "\""))) == Panics
  {
    var rest := "\"" + (Request(r) + "\"");
    RequestLacksQuote(r);
    assert rest != "" && rest[|rest| - 1] == '"';
    hide ParseHead, Printable, Prefix, Request, TrimRightNewlines, Lacks, ParseRequest, EndsAtRequest;
    HeadReadsBack(r, rest);
    EndsAtRequestText(Request(r));
    RequestPanicsIff(Head(r.address, r.user, rest));
    NoNewlines(Prefix(r) + rest);
  }
}

module Nginx {
  import opened NginxModel
  import opened Strings
  import opened Wrappers

  /** `strings.IndexByte`, with -1 as in the source. */
  function IndexByte(s: string, c: char): (i: int)
    ensures -1 <= i < |s| && (i >= 0 ==> s[i] == c)
    ensures CutAt(s, c) == if i < 0 then None else Some(Cut(s[..i], s[i + 1..]))
  {
    if s == "" then -1
    else if s[0] == c then 0
    else
      var i := IndexByte(s[1..], c);
      if i < 0 then -1 else
        assert [s[0]] + s[1..][..i] == s[..i + 1] && s[1..][i + 1..] == s[i + 2..];
        i + 1
  }

  /** `s` is passed and returned where the source updates it through a pointer. */
  method ExtractQuoted(s: string) returns (val: string, rest: string)
    ensures Quoted(s) == Cut(val, rest)
  {
    if |s| == 0 || s[0] != '"' {
      return "", s;
    }
    for i := 1 to |s|
      invariant Lacks(s[1..i], '"')
    {
      if s[i] == '"' {
        CutLaw(s[1..i], '"', s[i + 1..]);
        assert s[1..] == s[1..i] + (['"'] + s[i + 1..]);
        return s[1..i], DropSpace(s[i + 1..]);
      }
      assert s[1..i + 1] == s[1..i] + [s[i]];
    }
    assert s[1..] == s[1..|s|];
    CutNone(s[1..], '"');
    return "", s;
  }

  method ParseNginxLine(raw: string) returns (r: Outcome)
    ensures r == Parse(raw)
  {
    hide CutAt, ParseRequest, ParseUser, TrimLeftSpaces, TrimRightNewlines;
    var line := TrimRightNewlines(raw);
    var sp1 := IndexByte(line, ' ');
    if sp1 < 0 {
      return NotRecognised;
    }
    var srcIP, rest := line[..sp1], line[sp1 + 1..];
    var dashIdx := IndexByte(rest, '-');
    if dashIdx < 0 {
      return NotRecognised;
    }
    rest := TrimLeftSpaces(rest[dashIdx + 1..]);
    var head := UserAndTime(srcIP, rest);
    if head == None {
      return NotRecognised;
    }
    r := ParseAfterHead(head.value);
  }

  /** The part of `ParseNginxLine` that reads the user and skips the time. */
  method UserAndTime(srcIP: string, s: string) returns (head: Option<Head>)
    ensures head == ParseUser(srcIP, s)
  {
    hide CutAt;
    var rest := s;
    var sp2 := IndexByte(rest, ' ');
    if sp2 < 0 {
      return None;
    }
    var remoteUser := rest[..sp2];
    rest := rest[sp2 + 1..];
    if rest == "" || rest[0] != '[' {
      return None;
    }
    var tEnd := IndexByte(rest, ']');
    if tEnd < 0 {
      return None;
    }
    return Some(Head(srcIP, remoteUser, DropSpace(rest[tEnd + 1..])));
  }

  /** The part of `ParseNginxLine` from the request on. */
  method ParseAfterHead(h: Head) returns (r: Outcome)
    ensures r == ParseRequest(h)
  {
    hide CutAt, ParseTail;
    var rest := h.rest;
    if rest == "" || rest[0] != '"' {
      return NotRecognised;
    }
    var reqEnd := IndexByte(rest[1..], '"');
    if reqEnd < 0 {
      return NotRecognised;
    }
    var request := rest[1..1 + reqEnd];
    assert rest[1..][..reqEnd] == request && rest[1..][reqEnd + 1..] == rest[1 + reqEnd + 1..];
    if 1 + reqEnd + 2 > |rest| {
      return Panics;
    }
    assert rest[1 + reqEnd + 1..][1..] == rest[1 + reqEnd + 2..];
    rest := rest[1 + reqEnd + 2..];
    if rest == "" {
      return NotRecognised;
    }
    var space := IndexByte(request, ' ');
    if space < 0 {
      return NotRecognised;
    }
    var verb, more := request[..space], request[space + 1..];
    var space2 := IndexByte(more, ' ');
    if space2 < 0 {
      return NotRecognised;
    }
    var uri := more[..space2];
    r := ParseAfterRequest(h, verb, uri, rest);
  }

  /** The part of `ParseNginxLine` from the status on. */
  method ParseAfterRequest(h: Head, verb: string, uri: string, text: string) returns (r: Outcome)
    ensures r == ParseTail(h, verb, uri, text)
  {
    hide CutAt, Atoi, Quoted, FieldMap;
    var rest := text;
    var sp5 := IndexByte(rest, ' ');
    if sp5 < 0 {
      return NotRecognised;
    }
    var statusStr := rest[..sp5];
    if !Atoi(statusStr) {
      return NotRecognised;
    }
    rest := rest[sp5 + 1..];
    var sp6 := IndexByte(rest, ' ');
    if sp6 < 0 {
      return NotRecognised;
    }
    var bytesStr := rest[..sp6];
    if !Atoi(bytesStr) {
      return NotRecognised;
    }
    rest := rest[sp6 + 1..];
    var referer, ua;
    referer, rest := ExtractQuoted(rest);
    ua, rest := ExtractQuoted(rest);
    return Recognised(FieldMap(h.address, h.user, verb, uri, statusStr, bytesStr, Dashless(referer), Dashless(ua)));
  }
}
