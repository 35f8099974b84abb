/**
 * The bytes `HttpResponse::Serialization` prints, and a reader for them built
 * from the two searches a Buffer offers. A response is
 *   Status-Line CRLF *(header CRLF) CRLF [body]
 * (sections 6 and 6.1 of RFC 2616), its headers in whatever order the hash map
 * happens to iterate.
 */
module HttpSpec {
  import opened Wrappers
  import opened Search

  datatype Version = V09 | V10 | V11

  /** The reason phrases, spelled as the code spells them; None where `at` would throw. */
  function StatusCode2Message(code: nat): Option<string> {
    match code
    case 100 => Some("Continue")
    case 101 => Some("Switching Protocols")
    case 200 => Some("OK")
    case 201 => Some("Created")
    case 202 => Some("Accepted")
    case 203 => Some("Non-Authoritative Information")
    case 204 => Some("No Content")
    case 205 => Some("Reset Content")
    case 206 => Some("Parital Content")
    case 300 => Some("Multiple Choices")
    case 301 => Some("Moved Permanently")
    case 302 => Some("Found")
    case 303 => Some("See Other")
    case 304 => Some("Not Modified")
    case 305 => Some("Use Proxy")
    case 307 => Some("Temporary Redirect")
    case 400 => Some("Bad Request")
    case 401 => Some("Unauthorized")
    case 402 => Some("Payment Required")
    case 403 => Some("Forbidden")
    case 404 => Some("Not Found")
    case 405 => Some("Method Not Allowed")
    case 406 => Some("Not Acceptable")
    case 407 => Some("Proxy Authentication Required")
    case 408 => Some("Request Time-out")
    case 409 => Some("Conflict")
    case 410 => Some("Gone")
    case 411 => Some("Length Required")
    case 412 => Some("Precondition Failed")
    case 413 => Some("Request Entity Too Large")
    case 414 => Some("Request-URI Too Large")
    case 415 => Some("Unsupported Media Type")
    case 416 => Some("Requested range not satisfiable")
    case 417 => Some("Expectation Failed")
    case 500 => Some("Internal Server Error")
    case 501 => Some("Not Implemented")
    case 502 => Some("Bad Gateway")
    case 503 => Some("Service Unavailable")
    case 504 => Some("Gateway Time-out")
    case 505 => Some("HTTP Version not supported")
    case _ => None
  }

  datatype StatusLine = StatusLine(version: Version, code: nat, message: string)

  /** `body` is None until `setBody` is called (`useBody_`). */
  datatype Response = Response(line: StatusLine, headers: map<string, string>, body: Option<string>)

  /** What a reader can learn: an unset body and an empty one look alike. */
  datatype Message = Message(line: StatusLine, headers: map<string, string>, body: string)

  function BodyText(r: Response): string {
    if r.body.Some? then r.body.value else ""
  }

  function Meaning(r: Response): Message {
    Message(r.line, r.headers, BodyText(r))
  }

  /** One iteration order of the header map: every name once. */
  ghost predicate IsOrder(order: seq<string>, headers: map<string, string>) {
    && (forall n :: n in order <==> n in headers)
    && (forall i, j :: 0 <= i < j < |order| ==> order[i] != order[j])
  }

  // Printing

  function VersionText(v: Version): string {
    match v
    case V09 => "HTTP/0.9"
    case V10 => "HTTP/1.0"
    case V11 => "HTTP/1.1"
  }

  /** `std::to_string` */
  function ToString(n: nat): string {
    if n < 10 then [('0' as int + n) as char] else ToString(n / 10) + [('0' as int + n % 10) as char]
  }

  function StatusText(l: StatusLine): string {
    VersionText(l.version) + " " + ToString(l.code) + " " + l.message
  }

  function HeaderText(name: string, value: string): string {
    name + ": " + value
  }

  function HeaderLines(headers: map<string, string>, order: seq<string>): seq<string>
    requires forall n :: n in order ==> n in headers
  {
    if order == [] then []
    else [HeaderText(order[0], headers[order[0]])] + HeaderLines(headers, order[1..])
  }

  function HeadLines(r: Response, order: seq<string>): seq<string>
    requires forall n :: n in order ==> n in r.headers
  {
    [StatusText(r.line)] + HeaderLines(r.headers, order)
  }

  function Join(lines: seq<string>): string
    requires lines != []
  {
    if |lines| == 1 then lines[0] else lines[0] + CR_LF + Join(lines[1..])
  }

  function Print(r: Response, order: seq<string>): string
    requires forall n :: n in order ==> n in r.headers
  {
    Join(HeadLines(r, order)) + CR_LF_TWICE + BodyText(r)
  }

  // Reading

  function DigitOf(c: char): Option<nat> {
    if '0' <= c <= '9' then Some(c as nat - '0' as nat) else None
  }

  function ParseNat(s: string): Option<nat> {
    if s == "" then None
    else if |s| == 1 then DigitOf(s[0])
    else
      var front :- ParseNat(s[..|s| - 1]);
      var d :- DigitOf(s[|s| - 1]);
      Some(10 * front + d)
  }

  function ParseVersion(s: string): Option<Version> {
    if s == "HTTP/0.9" then Some(V09)
    else if s == "HTTP/1.0" then Some(V10)
    else if s == "HTTP/1.1" then Some(V11)
    else None
  }

  function DecodeStatus(line: string): Option<StatusLine> {
    if |line| < 9 || line[8] != ' ' then None
    else
      var version :- ParseVersion(line[..8]);
      var rest := line[9..];
      var space :- Find(rest, " ");
      var code :- ParseNat(rest[..space]);
      Some(StatusLine(version, code, rest[space + 1..]))
  }

  function DecodeHeaders(lines: seq<string>): Option<map<string, string>> {
    if lines == [] then Some(map[])
    else
      var colon :- Find(lines[0], ": ");
      var rest :- DecodeHeaders(lines[1..]);
      Some(map[lines[0][..colon] := lines[0][colon + 2..]] + rest)
  }

  function SplitLines(s: string): (lines: seq<string>)
    ensures lines != []
    ensures forall l :: l in lines ==> Free(l, CR_LF)
    decreases |s|
  {
    match Find(s, CR_LF)
    case None => [s]
    case Some(i) =>
      assert Free(s[..i], CR_LF) by {
        assert s[..i] + s[i..] == s;
        forall j: nat ensures !OccursAt(s[..i], CR_LF, j) {
          if OccursAt(s[..i], CR_LF, j) {
            OccursInPrefix(s[..i], s[i..], CR_LF, j);
          }
        }
      }
      [s[..i]] + SplitLines(s[i + 2..])
  }

  function Decode(s: string): Option<Message> {
    var head :- Find(s, CR_LF_TWICE);
    var lines := SplitLines(s[..head]);
    var line :- DecodeStatus(lines[0]);
    var headers :- DecodeHeaders(lines[1..]);
    Some(Message(line, headers, s[head + 4..]))
  }

  // CRLF, character by character

  lemma CrLfChars(s: string, i: nat)
    ensures OccursAt(s, CR_LF, i) <==> i + 1 < |s| && s[i] == '\r' && s[i + 1] == '\n'
  {
    if i + 1 < |s| {
      assert s[i..i + 2] == [s[i], s[i + 1]];
    }
  }

  lemma CrLfTwiceIsTwo(s: string, i: nat)
    ensures OccursAt(s, CR_LF_TWICE, i) <==> OccursAt(s, CR_LF, i) && OccursAt(s, CR_LF, i + 2)
  {
    if i + 4 <= |s| {
      assert s[i..i + 4] == s[i..i + 2] + s[i + 2..i + 4];
      assert CR_LF_TWICE == CR_LF + CR_LF;
      assert s[i..i + 4][..2] == s[i..i + 2] && s[i..i + 4][2..] == s[i + 2..i + 4];
    }
  }

  lemma FreeConcat(a: string, b: string)
    requires Free(a, CR_LF) && Free(b, CR_LF)
    requires a == "" || b == "" || a[|a| - 1] != '\r' || b[0] != '\n'
    ensures Free(a + b, CR_LF)
  {
    forall i: nat ensures !OccursAt(a + b, CR_LF, i) {
      CrLfChars(a + b, i);
      CrLfChars(a, i);
      if |a| <= i {
        CrLfChars(b, i - |a|);
      }
    }
  }

  lemma FreeParts(a: string, b: string)
    requires Free(a + b, CR_LF)
    ensures Free(a, CR_LF) && Free(b, CR_LF)
  {
    FreeSlice(a + b, CR_LF, 0, |a|);
    FreeSlice(a + b, CR_LF, |a|, |a + b|);
    assert (a + b)[0..|a|] == a && (a + b)[|a|..|a + b|] == b;
  }

  lemma NoReturnIsFree(s: string)
    requires '\r' !in s
    ensures Free(s, CR_LF)
  {
    forall i: nat ensures !OccursAt(s, CR_LF, i) {
      CrLfChars(s, i);
    }
  }

  // Lines

  /** Inside a line and across its end, CRLF occurs only as the line's own terminator. */
  lemma FirstCrLf(line: string, rest: string)
    requires Free(line, CR_LF)
    ensures Find(line + CR_LF + rest, CR_LF) == Some(|line|)
  {
    var s := line + CR_LF + rest;
    CrLfChars(s, |line|);
    forall i: nat | i < |line| ensures !OccursAt(s, CR_LF, i) {
      CrLfChars(s, i);
      CrLfChars(line, i);
    }
    FindIs(s, CR_LF, |line|);
  }

  lemma {:induction false} SplitUndoesJoin(lines: seq<string>)
    requires lines != [] && forall l :: l in lines ==> Free(l, CR_LF)
    ensures SplitLines(Join(lines)) == lines
  {
    if |lines| == 1 {
      FindNothing(lines[0], CR_LF);
    } else {
      var s := Join(lines);
      FirstCrLf(lines[0], Join(lines[1..]));
      assert s[..|lines[0]|] == lines[0] && s[|lines[0]| + 2..] == Join(lines[1..]);
      SplitUndoesJoin(lines[1..]);
    }
  }

  ghost predicate StartsBlank(t: string) {
    1 < |t| && t[0] == '\r' && t[1] == '\n'
  }

  /** In front of a line's end there is no CRLFCRLF, and at its end only if a blank line follows. */
  lemma NoBlankInLine(line: string, rest: string, i: nat)
    requires Free(line, CR_LF) && i < |line| + 2
    ensures OccursAt(line + CR_LF + rest, CR_LF_TWICE, i) ==> i == |line| && StartsBlank(rest)
  {
    var s := line + CR_LF + rest;
    CrLfTwiceIsTwo(s, i);
    CrLfChars(s, i);
    CrLfChars(s, i + 2);
    CrLfChars(line, i);
  }

  lemma BlankAfterLine(line: string, rest: string, k: nat)
    requires Free(line, CR_LF) && !StartsBlank(rest) && Find(rest, CR_LF_TWICE) == Some(k)
    ensures Find(line + CR_LF + rest, CR_LF_TWICE) == Some(|line| + 2 + k)
  {
    var front := line + CR_LF;
    OccursInSuffix(front, rest, CR_LF_TWICE, k);
    forall i: nat | i < |front| + k ensures !OccursAt(front + rest, CR_LF_TWICE, i) {
      if i < |front| {
        NoBlankInLine(line, rest, i);
      } else {
        OccursInSuffix(front, rest, CR_LF_TWICE, i - |front|);
      }
    }
    FindIs(front + rest, CR_LF_TWICE, |front| + k);
  }

  lemma LastLine(line: string, body: string)
    requires Free(line, CR_LF)
    ensures Find(line + CR_LF_TWICE + body, CR_LF_TWICE) == Some(|line|)
  {
    var s := line + CR_LF_TWICE + body;
    assert s[|line|..|line| + 4] == CR_LF_TWICE;
    assert s == line + CR_LF + (CR_LF + body);
    forall i: nat | i < |line| ensures !OccursAt(s, CR_LF_TWICE, i) {
      NoBlankInLine(line, CR_LF + body, i);
    }
    FindIs(s, CR_LF_TWICE, |line|);
  }

  /** The blank line is the first CRLFCRLF, whatever the body holds. */
  lemma {:induction false} BlankLineEndsHead(lines: seq<string>, body: string)
    requires |lines| > 0 && forall l :: l in lines ==> l != "" && Free(l, CR_LF)
    ensures Find(Join(lines) + CR_LF_TWICE + body, CR_LF_TWICE) == Some(|Join(lines)|)
  {
    if |lines| == 1 {
      LastLine(lines[0], body);
    } else {
      var rest := Join(lines[1..]) + CR_LF_TWICE + body;
      assert forall k :: k in lines[1..] ==> k in lines;
      BlankLineEndsHead(lines[1..], body);
      NextLineIsNotBlank(lines[1..], body);
      BlankAfterLine(lines[0], rest, |Join(lines[1..])|);
      assert Join(lines) + CR_LF_TWICE + body == lines[0] + CR_LF + rest;
    }
  }

  lemma NextLineIsNotBlank(lines: seq<string>, body: string)
    requires |lines| > 0 && forall l :: l in lines ==> l != "" && Free(l, CR_LF)
    ensures !StartsBlank(Join(lines) + CR_LF_TWICE + body)
  {
    var t := Join(lines) + CR_LF_TWICE + body;
    var l := lines[0];
    assert l in lines;
    assert t[0] == l[0];
    assert t[1] == if |l| == 1 then '\r' else l[1];
    CrLfChars(l, 0);
  }

  // Status line

  lemma {:induction false} ParseUndoesToString(n: nat)
    ensures ParseNat(ToString(n)) == Some(n)
    ensures ToString(n) != "" && forall c :: c in ToString(n) ==> '0' <= c <= '9'
  {
    if 10 <= n {
      ParseUndoesToString(n / 10);
      var s := ToString(n);
      assert s[..|s| - 1] == ToString(n / 10);
    }
  }

  /** No leading zero, and a code of three digits is printed as three. */
  lemma {:induction false} ToStringCanonical(n: nat)
    ensures ToString(n) != "" && (0 < n ==> ToString(n)[0] != '0')
    ensures n < 10 <==> |ToString(n)| == 1
    ensures 10 <= n < 100 <==> |ToString(n)| == 2
    ensures 100 <= n < 1000 <==> |ToString(n)| == 3
  {
    if 10 <= n {
      ToStringCanonical(n / 10);
    }
  }

  /** Those are the only digits there are for a number: `ToString` is the one way to write it. */
  lemma {:induction false} ToStringOnly(s: string, n: nat)
    requires ParseNat(s) == Some(n) && (s[0] != '0' || |s| == 1)
    ensures s == ToString(n)
    decreases |s|
  {
    if |s| > 1 {
      var front := s[..|s| - 1];
      var m := ParseNat(front).value;
      var d := DigitOf(s[|s| - 1]).value;
      ToStringOnly(front, m);
      ToStringPositive(front, m);
      assert n / 10 == m && n % 10 == d;
      assert s == front + [s[|s| - 1]];
    }
  }

  lemma {:induction false} ToStringPositive(s: string, n: nat)
    requires ParseNat(s) == Some(n) && s[0] != '0'
    ensures 0 < n
    decreases |s|
  {
    if |s| > 1 {
      ToStringPositive(s[..|s| - 1], ParseNat(s[..|s| - 1]).value);
    }
  }

  lemma FirstSpace(word: string, tail: string)
    requires ' ' !in word
    ensures Find(word + " " + tail, " ") == Some(|word|)
  {
    var text := word + " " + tail;
    assert text[|word|..|word| + 1] == " ";
    forall i: nat | i < |word| ensures !OccursAt(text, " ", i) {
      assert text[i..i + 1] == [word[i]];
      assert word[i] in word;
    }
    FindIs(text, " ", |word|);
  }

  lemma DecodeStatusText(l: StatusLine)
    ensures DecodeStatus(StatusText(l)) == Some(l)
  {
    var text, digits := StatusText(l), ToString(l.code);
    ParseUndoesToString(l.code);
    assert text[..8] == VersionText(l.version);
    var rest := text[9..];
    assert rest == digits + " " + l.message;
    FirstSpace(digits, l.message);
    assert rest[..|digits|] == digits && rest[|digits| + 1..] == l.message;
  }

  lemma StatusTextFree(l: StatusLine)
    ensures StatusText(l) != ""
    ensures Free(StatusText(l), CR_LF) <==> Free(l.message, CR_LF)
  {
    var front := VersionText(l.version) + " " + ToString(l.code) + " ";
    ParseUndoesToString(l.code);
    assert '\r' !in front;
    NoReturnIsFree(front);
    assert StatusText(l) == front + l.message;
    if Free(l.message, CR_LF) {
      FreeConcat(front, l.message);
    } else {
      if Free(front + l.message, CR_LF) {
        FreeParts(front, l.message);
      }
    }
  }

  lemma DecodeStatusFree(line: string)
    requires Free(line, CR_LF) && DecodeStatus(line).Some?
    ensures Free(DecodeStatus(line).value.message, CR_LF)
  {
    var rest := line[9..];
    var space := Find(rest, " ").value;
    assert rest[space + 1..] == line[9 + space + 1..|line|];
    FreeSlice(line, CR_LF, 9 + space + 1, |line|);
  }

  // Headers

  /** A header is readable if its name does not contain the separator, nor either part the line end. */
  ghost predicate ReadableHeader(name: string, value: string) {
    Free(name, CR_LF) && Free(name, ": ") && Free(value, CR_LF)
  }

  lemma HeaderTextFree(name: string, value: string)
    requires Free(name, CR_LF) && Free(value, CR_LF)
    ensures Free(HeaderText(name, value), CR_LF)
  {
    NoReturnIsFree(": ");
    FreeConcat(name, ": ");
    FreeConcat(name + ": ", value);
  }

  lemma SeparatorIsFirst(name: string, value: string)
    requires Free(name, ": ")
    ensures Find(HeaderText(name, value), ": ") == Some(|name|)
  {
    var t := HeaderText(name, value);
    assert t[|name|..|name| + 2] == ": ";
    forall i: nat | i < |name| ensures !OccursAt(t, ": ", i) {
      if i + 2 <= |name| {
        assert t == name + (": " + value);
        OccursInPrefix(name, ": " + value, ": ", i);
      } else {
        assert t[i..i + 2][1] == t[|name|] == ':';
        assert ": "[1] == ' ';
      }
    }
    FindIs(t, ": ", |name|);
  }

  lemma {:induction false} DecodeHeaderLines(headers: map<string, string>, order: seq<string>)
    requires forall n :: n in order ==> n in headers && Free(n, ": ")
    ensures DecodeHeaders(HeaderLines(headers, order)) == Some(map n | n in order :: headers[n])
  {
    if order == [] {
    } else {
      DecodeHeaderLines(headers, order[1..]);
      DecodeFirstHeader(order[0], headers[order[0]], HeaderLines(headers, order[1..]));
      RestrictStep(headers, order);
    }
  }

  lemma RestrictStep(headers: map<string, string>, order: seq<string>)
    requires order != [] && forall n :: n in order ==> n in headers
    ensures map[order[0] := headers[order[0]]] + (map n | n in order[1..] :: headers[n])
         == map n | n in order :: headers[n]
  {
    assert forall n :: n in order <==> n == order[0] || n in order[1..];
  }

  lemma DecodeFirstHeader(name: string, value: string, lines: seq<string>)
    requires Free(name, ": ")
    ensures DecodeHeaders([HeaderText(name, value)] + lines)
         == if DecodeHeaders(lines).Some? then Some(map[name := value] + DecodeHeaders(lines).value) else None
  {
    var t := HeaderText(name, value);
    SeparatorIsFirst(name, value);
    assert t[..|name|] == name && t[|name| + 2..] == value;
    assert ([t] + lines)[1..] == lines;
  }

  lemma {:induction false} DecodedHeadersReadable(lines: seq<string>)
    requires forall l :: l in lines ==> Free(l, CR_LF)
    requires DecodeHeaders(lines).Some?
    ensures var m := DecodeHeaders(lines).value; forall n :: n in m ==> ReadableHeader(n, m[n])
  {
    if lines == [] {
    } else {
      var l := lines[0];
      var colon := Find(l, ": ").value;
      DecodedHeadersReadable(lines[1..]);
      FreeSlice(l, CR_LF, 0, colon);
      FreeSlice(l, CR_LF, colon + 2, |l|);
      assert l[0..colon] == l[..colon] && l[colon + 2..|l|] == l[colon + 2..];
      forall i: nat ensures !OccursAt(l[..colon], ": ", i) {
        if OccursAt(l[..colon], ": ", i) {
          assert l == l[..colon] + l[colon..];
          OccursInPrefix(l[..colon], l[colon..], ": ", i);
        }
      }
    }
  }

  lemma {:induction false} HeaderLinesSound(headers: map<string, string>, order: seq<string>)
    requires forall n :: n in order ==> n in headers && Free(n, CR_LF) && Free(headers[n], CR_LF)
    ensures forall l :: l in HeaderLines(headers, order) ==> l != "" && Free(l, CR_LF)
  {
    if order == [] {
    } else {
      HeaderTextFree(order[0], headers[order[0]]);
      HeaderLinesSound(headers, order[1..]);
    }
  }

  // Main results

  /** Nothing that goes into a head line brings a line end of its own. */
  ghost predicate Unbroken(r: Response) {
    && Free(r.line.message, CR_LF)
    && forall n :: n in r.headers ==> Free(n, CR_LF) && Free(r.headers[n], CR_LF)
  }

  /** Checkable on the response alone, before it is printed. */
  ghost predicate Readable(r: Response) {
    && Free(r.line.message, CR_LF)
    && forall n :: n in r.headers ==> ReadableHeader(n, r.headers[n])
  }

  lemma HeadLinesSound(r: Response, order: seq<string>)
    requires IsOrder(order, r.headers) && Unbroken(r)
    ensures forall l :: l in HeadLines(r, order) ==> l != "" && Free(l, CR_LF)
  {
    StatusTextFree(r.line);
    HeaderLinesSound(r.headers, order);
  }

  /** The search for the blank line stops exactly behind the last head line. */
  lemma HeadBoundary(r: Response, order: seq<string>)
    requires IsOrder(order, r.headers) && Unbroken(r)
    ensures Find(Print(r, order), CR_LF_TWICE) == Some(|Join(HeadLines(r, order))|)
  {
    HeadLinesSound(r, order);
    BlankLineEndsHead(HeadLines(r, order), BodyText(r));
  }

  lemma RoundTrip(r: Response, order: seq<string>)
    requires IsOrder(order, r.headers) && Readable(r)
    ensures Decode(Print(r, order)) == Some(Meaning(r))
  {
    var lines, s := HeadLines(r, order), Print(r, order);
    HeadBoundary(r, order);
    PrintParts(r, order);
    HeadLinesSound(r, order);
    SplitUndoesJoin(lines);
    DecodeStatusText(r.line);
    DecodeHeadHeaders(r, order);
    DecodedParts(s, |Join(lines)|, lines, Meaning(r));
  }

  lemma PrintParts(r: Response, order: seq<string>)
    requires forall n :: n in order ==> n in r.headers
    ensures var head := Join(HeadLines(r, order));
            Print(r, order)[..|head|] == head && Print(r, order)[|head| + 4..] == BodyText(r)
  {
    var head := Join(HeadLines(r, order));
    assert Print(r, order) == head + CR_LF_TWICE + BodyText(r);
  }

  lemma DecodeHeadHeaders(r: Response, order: seq<string>)
    requires IsOrder(order, r.headers) && Readable(r)
    ensures DecodeHeaders(HeadLines(r, order)[1..]) == Some(r.headers)
  {
    DecodeHeaderLines(r.headers, order);
    assert (map n | n in order :: r.headers[n]) == r.headers;
    assert HeadLines(r, order)[1..] == HeaderLines(r.headers, order);
  }

  lemma DecodedParts(s: string, head: nat, lines: seq<string>, m: Message)
    requires Find(s, CR_LF_TWICE) == Some(head) && SplitLines(s[..head]) == lines != []
    requires DecodeStatus(lines[0]) == Some(m.line) && DecodeHeaders(lines[1..]) == Some(m.headers)
    requires s[head + 4..] == m.body
    ensures Decode(s) == Some(m)
  {
  }

  /**
   * A printed response reads back as itself, in every header order, exactly
   * when it is `Readable`: nothing weaker would do.
   */
  lemma RoundTripExact(r: Response, order: seq<string>)
    requires IsOrder(order, r.headers)
    ensures Decode(Print(r, order)) == Some(Meaning(r)) <==> Readable(r)
  {
    if Readable(r) {
      RoundTrip(r, order);
    } else if Decode(Print(r, order)) == Some(Meaning(r)) {
      var s := Print(r, order);
      var lines := SplitLines(s[..Find(s, CR_LF_TWICE).value]);
      DecodeStatusFree(lines[0]);
      DecodedHeadersReadable(lines[1..]);
    }
  }

  /** Different responses print differently, in any two orders; only an unset and an empty body coincide. */
  lemma PrintInjective(r1: Response, order1: seq<string>, r2: Response, order2: seq<string>)
    requires IsOrder(order1, r1.headers) && Readable(r1)
    requires IsOrder(order2, r2.headers) && Readable(r2)
    ensures Print(r1, order1) == Print(r2, order2) ==> Meaning(r1) == Meaning(r2)
  {
    RoundTrip(r1, order1);
    RoundTrip(r2, order2);
  }

  /** The response every `HttpResponse` starts as, byte for byte. */
  lemma DefaultResponseText()
    ensures Print(Response(StatusLine(V11, 200, "OK"), map[], None), []) == "HTTP/1.1 200 OK\r\n\r\n"
  {
    assert ToString(2) == "2";
    assert ToString(20) == "20";
    assert ToString(200) == "200";
    var line := StatusLine(V11, 200, "OK");
    assert StatusText(line) == "HTTP/1.1 200 OK";
    assert HeadLines(Response(line, map[], None), []) == [StatusText(line)];
  }

  /** A value carrying a line end of its own is read as two headers. */
  lemma SplitHeaderIsMisread()
    ensures var r := Response(StatusLine(V11, 200, "OK"), map["a" := "1\r\nb: 2"], None);
            IsOrder(["a"], r.headers) && Decode(Print(r, ["a"])) != Some(Meaning(r))
  {
    var r := Response(StatusLine(V11, 200, "OK"), map["a" := "1\r\nb: 2"], None);
    assert IsOrder(["a"], r.headers);
    CrLfChars(r.headers["a"], 1);
    assert !ReadableHeader("a", r.headers["a"]);
    assert "a" in r.headers;
    RoundTripExact(r, ["a"]);
  }

  // Every reason phrase of the table keeps the status line readable.

  lemma PhrasesTo201(c: nat)
    requires 100 <= c < 202 && StatusCode2Message(c).Some?
    ensures '\r' !in StatusCode2Message(c).value
  {
  }

  lemma PhrasesTo206(c: nat)
    requires 202 <= c < 207 && StatusCode2Message(c).Some?
    ensures '\r' !in StatusCode2Message(c).value
  {
  }

  lemma PhrasesTo307(c: nat)
    requires 300 <= c < 308 && StatusCode2Message(c).Some?
    ensures '\r' !in StatusCode2Message(c).value
  {
  }

  lemma PhrasesTo403(c: nat)
    requires 400 <= c < 404 && StatusCode2Message(c).Some?
    ensures '\r' !in StatusCode2Message(c).value
  {
  }

  lemma PhrasesTo407(c: nat)
    requires 404 <= c < 408 && StatusCode2Message(c).Some?
    ensures '\r' !in StatusCode2Message(c).value
  {
  }

  lemma PhrasesTo412(c: nat)
    requires 408 <= c < 413 && StatusCode2Message(c).Some?
    ensures '\r' !in StatusCode2Message(c).value
  {
  }

  lemma PhrasesTo415(c: nat)
    requires 413 <= c < 416 && StatusCode2Message(c).Some?
    ensures '\r' !in StatusCode2Message(c).value
  {
  }

  lemma PhrasesTo417(c: nat)
    requires 416 <= c < 418 && StatusCode2Message(c).Some?
    ensures '\r' !in StatusCode2Message(c).value
  {
  }

  lemma PhrasesTo502(c: nat)
    requires 500 <= c < 503 && StatusCode2Message(c).Some?
    ensures '\r' !in StatusCode2Message(c).value
  {
  }

  lemma PhrasesTo505(c: nat)
    requires 503 <= c < 506 && StatusCode2Message(c).Some?
    ensures '\r' !in StatusCode2Message(c).value
  {
  }

  lemma PhrasesFree(code: nat)
    requires StatusCode2Message(code).Some?
    ensures Free(StatusCode2Message(code).value, CR_LF)
  {
    if code < 202 {
      PhrasesTo201(code);
    } else if code < 207 {
      PhrasesTo206(code);
    } else if code < 308 {
      PhrasesTo307(code);
    } else if code < 404 {
      PhrasesTo403(code);
    } else if code < 408 {
      PhrasesTo407(code);
    } else if code < 413 {
      PhrasesTo412(code);
    } else if code < 416 {
      PhrasesTo415(code);
    } else if code < 418 {
      PhrasesTo417(code);
    } else if code < 503 {
      PhrasesTo502(code);
    } else if code < 506 {
      PhrasesTo505(code);
    }
    NoReturnIsFree(StatusCode2Message(code).value);
  }
}
