/**
 * `HttpResponse`: setters that fill a response in, and the printing of it into
 * a Buffer, one `append` at a time.
 */
module HttpResponses {
  import opened Sequences
  import opened Wrappers
  import opened Search
  import opened BufferSpec
  import opened Buffers
  import opened HttpSpec

  // The appends that printing consists of

  function StatusWrites(l: StatusLine): seq<Op> {
    [Append(VersionText(l.version)), Append(" "), Append(ToString(l.code)), Append(" "),
     Append(l.message), Append(CR_LF)]
  }

  function HeaderWrites(headers: map<string, string>, order: seq<string>): seq<Op>
    requires forall n :: n in order ==> n in headers
  {
    if order == [] then []
    else [Append(order[0]), Append(": "), Append(headers[order[0]]), Append(CR_LF)] + HeaderWrites(headers, order[1..])
  }

  function BodyWrites(body: Option<string>): seq<Op> {
    [Append(CR_LF)] + if body.Some? then [Append(body.value)] else []
  }

  function Writes(r: Response, order: seq<string>): seq<Op>
    requires forall n :: n in order ==> n in r.headers
  {
    StatusWrites(r.line) + (HeaderWrites(r.headers, order) + BodyWrites(r.body))
  }

  lemma HeaderWritesAt(headers: map<string, string>, order: seq<string>, i: nat, rest: seq<Op>)
    requires i < |order| && forall n :: n in order ==> n in headers
    ensures var ops := HeaderWrites(headers, order[i..]) + rest;
            && 4 <= |ops|
            && ops[..4] == [Append(order[i]), Append(": "), Append(headers[order[i]]), Append(CR_LF)]
            && ops[4..] == HeaderWrites(headers, order[i + 1..]) + rest
  {
    assert order[i..][1..] == order[i + 1..];
  }

  lemma FedCons(x: string, rest: seq<Op>)
    ensures Fed([Append(x)] + rest) == x + Fed(rest)
  {
    assert ([Append(x)] + rest)[1..] == rest;
  }

  lemma FedFour(a: string, b: string, c: string, d: string, rest: seq<Op>)
    ensures Fed([Append(a), Append(b), Append(c), Append(d)] + rest) == a + b + c + d + Fed(rest)
  {
    FedTwo(a, b);
    FedTwo(c, d);
    FedConcat([Append(a), Append(b)], [Append(c), Append(d)]);
    FedConcat([Append(a), Append(b), Append(c), Append(d)], rest);
    assert [Append(a), Append(b)] + [Append(c), Append(d)] == [Append(a), Append(b), Append(c), Append(d)];
    assert (a + b) + (c + d) == a + b + c + d;
  }

  lemma FedHeader(headers: map<string, string>, order: seq<string>)
    requires order != [] && forall n :: n in order ==> n in headers
    ensures Fed(HeaderWrites(headers, order))
         == HeaderText(order[0], headers[order[0]]) + CR_LF + Fed(HeaderWrites(headers, order[1..]))
  {
    FedFour(order[0], ": ", headers[order[0]], CR_LF, HeaderWrites(headers, order[1..]));
  }

  lemma {:induction false} FedHeaders(text: string, headers: map<string, string>, order: seq<string>)
    requires forall n :: n in order ==> n in headers
    ensures text + CR_LF + Fed(HeaderWrites(headers, order)) == Join([text] + HeaderLines(headers, order)) + CR_LF
    decreases order
  {
    if order == [] {
      assert Fed(HeaderWrites(headers, order)) == "";
    } else {
      var next := HeaderText(order[0], headers[order[0]]);
      var rest := Fed(HeaderWrites(headers, order[1..]));
      FedHeaders(next, headers, order[1..]);
      FedHeader(headers, order);
      var lines := [text] + HeaderLines(headers, order);
      assert lines[1..] == [next] + HeaderLines(headers, order[1..]);
      Associative(text + CR_LF, next + CR_LF, rest);
      Associative(text + CR_LF, Join(lines[1..]), CR_LF);
    }
  }

  lemma FedStatus(l: StatusLine)
    ensures Fed(StatusWrites(l)) == StatusText(l) + CR_LF
  {
    var tail := [Append(l.message), Append(CR_LF)];
    assert StatusWrites(l)
        == [Append(VersionText(l.version)), Append(" "), Append(ToString(l.code)), Append(" ")] + tail;
    FedFour(VersionText(l.version), " ", ToString(l.code), " ", tail);
    FedTwo(l.message, CR_LF);
    assert VersionText(l.version) + " " + ToString(l.code) + " " + (l.message + CR_LF) == StatusText(l) + CR_LF;
  }

  lemma FedTwo(a: string, b: string)
    ensures Fed([Append(a), Append(b)]) == a + b
  {
    assert [Append(a), Append(b)] == [Append(a)] + [Append(b)];
    assert [Append(b)] == [Append(b)] + [];
    FedCons(a, [Append(b)]);
    FedCons(b, []);
  }

  lemma FedBody(body: Option<string>)
    ensures Fed(BodyWrites(body)) == CR_LF + if body.Some? then body.value else ""
  {
    if body.Some? {
      FedTwo(CR_LF, body.value);
      assert BodyWrites(body) == [Append(CR_LF), Append(body.value)];
    } else {
      FedCons(CR_LF, []);
      assert BodyWrites(body) == [Append(CR_LF)] + [];
    }
  }

  /** Put together, the appends spell the response, for every header order. */
  lemma WritesSpellResponse(r: Response, order: seq<string>)
    requires forall n :: n in order ==> n in r.headers
    ensures Fed(Writes(r, order)) == Print(r, order)
  {
    var h, b := HeaderWrites(r.headers, order), BodyWrites(r.body);
    FedConcat(StatusWrites(r.line), h + b);
    FedConcat(h, b);
    FedStatus(r.line);
    FedHeaders(StatusText(r.line), r.headers, order);
    FedBody(r.body);
    SpellOut(StatusText(r.line) + CR_LF, Fed(h), Fed(b), Join(HeadLines(r, order)), BodyText(r));
  }

  lemma SpellOut(first: string, middle: string, last: string, head: string, body: string)
    requires first + middle == head + CR_LF && last == CR_LF + body
    ensures first + (middle + last) == head + CR_LF_TWICE + body
  {
    assert first + (middle + last) == (first + middle) + last;
    assert CR_LF_TWICE == CR_LF + CR_LF;
  }

  /**
   * When printing is certain to find room: always with the intended growth, and
   * as written, with a factor of two or more, if no piece exceeds the container's size.
   */
  lemma {:induction false} WritesAllowed(c: Config, v: View, ops: seq<Op>)
    requires Wf(c, v) && forall op :: op in ops ==> op.Append?
    requires c.growth.Intended? || (2.0 <= c.factor && forall op :: op in ops ==> |op.xs| <= v.size)
    ensures RunAllowed(c, v, ops)
    decreases |ops|
  {
    if ops == [] {
    } else {
      if c.growth.AsWritten? {
        ModestRequestsFit(c, v, |ops[0].xs|);
      }
      CapacityExact(c, v, |ops[0].xs|);
      ApplyIsQueueStep(c, v, ops[0]);
      WritesAllowed(c, Apply(c, v, ops[0]), ops[1..]);
    }
  }

  /** With `v` come to `u`, exactly `rest` is left of the run `ops`. */
  ghost predicate Continues(c: Config, v: View, ops: seq<Op>, u: View, rest: seq<Op>)
    requires Wf(c, v) && Wf(c, u)
  {
    && (RunAllowed(c, v, ops) <==> RunAllowed(c, u, rest))
    && (RunAllowed(c, u, rest) ==> Final(c, u, rest) == Final(c, v, ops))
  }

  /** One append; `inBounds` is false if the run, here already, does not fit the buffer. */
  method Emit(buff: Buffer, xs: string, ghost ops: seq<Op>) returns (inBounds: bool)
    requires buff.Valid() && ops != [] && ops[0] == Append(xs)
    modifies buff, buff.buff
    ensures buff.buff == old(buff.buff) || fresh(buff.buff)
    ensures inBounds ==> buff.Valid() && Continues(buff.Cfg(), old(buff.Layout()), ops, buff.Layout(), ops[1..])
    ensures !inBounds ==> !RunAllowed(buff.Cfg(), old(buff.Layout()), ops)
  {
    inBounds := buff.Append(xs);
  }

  /** Three appends in a row; the status line and a header line are made of these. */
  method EmitThree(buff: Buffer, a: string, b: string, c: string, ghost ops: seq<Op>) returns (inBounds: bool)
    requires buff.Valid() && [Append(a), Append(b), Append(c)] <= ops
    modifies buff, buff.buff
    ensures buff.buff == old(buff.buff) || fresh(buff.buff)
    ensures inBounds ==> buff.Valid() && Continues(buff.Cfg(), old(buff.Layout()), ops, buff.Layout(), ops[3..])
    ensures !inBounds ==> !RunAllowed(buff.Cfg(), old(buff.Layout()), ops)
  {
    ghost var three := [Append(a), Append(b), Append(c)];
    assert ops[0] == three[0] && ops[1] == three[1] && ops[2] == three[2];
    assert ops[1..][1..] == ops[2..] && ops[2..][1..] == ops[3..];
    inBounds := Emit(buff, a, ops);
    if !inBounds { return; }
    inBounds := Emit(buff, b, ops[1..]);
    if !inBounds { return; }
    inBounds := Emit(buff, c, ops[2..]);
  }

  /** What a completed run of appends has put behind the bytes already there. */
  lemma PrintedReadsBack(c: Config, v: View, r: Response, order: seq<string>)
    requires Wf(c, v) && IsOrder(order, r.headers) && RunAllowed(c, v, Writes(r, order))
    requires Free(r.line.message, CR_LF)
    ensures Final(c, v, Writes(r, order)).data == v.data + Print(r, order)
    ensures v.data == "" ==>
              (Decode(Final(c, v, Writes(r, order)).data) == Some(Meaning(r))
               <==> forall n :: n in r.headers ==> ReadableHeader(n, r.headers[n]))
  {
    var end := Final(c, v, Writes(r, order)).data;
    StreamConservation(c, v, Writes(r, order));
    AppendsConsumeNothing(c, v, r, order);
    WritesSpellResponse(r, order);
    assert "" + end == end;
    if v.data == "" {
      assert v.data + Print(r, order) == Print(r, order);
      RoundTripExact(r, order);
    }
  }

  class HttpResponse {
    var version: Version
    var code: nat
    var statusMessage: string
    var headers: map<string, string>
    var useBody: bool
    var body: string

    /** The reason phrase always belongs to the code. */
    ghost predicate Valid()
      reads this
    {
      StatusCode2Message(code) == Some(statusMessage)
    }

    ghost function Value(): Response
      reads this
    {
      Response(StatusLine(version, code, statusMessage), headers, if useBody then Some(body) else None)
    }

    constructor ()
      ensures Valid() && Value() == Response(StatusLine(V11, 200, "OK"), map[], None)
    {
      version, code, statusMessage := V11, 200, "OK";
      headers, useBody, body := map[], false, "";
    }

    method AddHeader(name: string, value: string)
      requires Valid()
      modifies this`headers
      ensures Valid() && Value() == old(Value()).(headers := old(headers)[name := value])
    {
      headers := headers[name := value];
    }

    /** `StatusCode` has no values outside the table. */
    method SetStatusCode(c: nat)
      requires Valid() && StatusCode2Message(c).Some?
      modifies this`code, this`statusMessage
      ensures Valid() && code == c
      ensures Value() == old(Value()).(line := StatusLine(version, c, statusMessage))
    {
      code := c;
      statusMessage := StatusCode2Message(c).value;
    }

    method SetBody(str: string)
      requires Valid()
      modifies this`body, this`useBody
      ensures Valid() && Value() == old(Value()).(body := Some(str))
    {
      body := str;
      useBody := true;
    }

    method SerializeStatusLine(buff: Buffer, ghost ops: seq<Op>) returns (inBounds: bool)
      requires buff.Valid() && StatusWrites(Value().line) <= ops
      modifies buff, buff.buff
      ensures buff.buff == old(buff.buff) || fresh(buff.buff)
      ensures inBounds ==> buff.Valid() && Continues(buff.Cfg(), old(buff.Layout()), ops, buff.Layout(), ops[6..])
      ensures !inBounds ==> !RunAllowed(buff.Cfg(), old(buff.Layout()), ops)
    {
      var text := match version case V09 => "HTTP/0.9" case V10 => "HTTP/1.0" case _ => "HTTP/1.1";
      ghost var w := StatusWrites(Value().line);
      assert w[..3] <= ops && w[3..] <= ops[3..];
      assert ops[3..][3..] == ops[6..];
      inBounds := EmitThree(buff, text, " ", ToString(code), ops);
      if !inBounds { return; }
      inBounds := EmitThree(buff, " ", statusMessage, CR_LF, ops[3..]);
    }

    method SerializeHeader(buff: Buffer, name: string, value: string, ghost ops: seq<Op>) returns (inBounds: bool)
      requires buff.Valid()
      requires 4 <= |ops| && ops[..4] == [Append(name), Append(": "), Append(value), Append(CR_LF)]
      modifies buff, buff.buff
      ensures buff.buff == old(buff.buff) || fresh(buff.buff)
      ensures inBounds ==> buff.Valid() && Continues(buff.Cfg(), old(buff.Layout()), ops, buff.Layout(), ops[4..])
      ensures !inBounds ==> !RunAllowed(buff.Cfg(), old(buff.Layout()), ops)
    {
      assert ops[..4][..3] == ops[..3] && ops[3] == ops[..4][3] && ops[3..][1..] == ops[4..];
      inBounds := EmitThree(buff, name, ": ", value, ops);
      if !inBounds { return; }
      inBounds := Emit(buff, CR_LF, ops[3..]);
    }

    method SerializeHeaders(buff: Buffer, order: seq<string>, ghost rest: seq<Op>) returns (inBounds: bool)
      requires buff.Valid() && forall n :: n in order ==> n in headers
      modifies buff, buff.buff
      ensures buff.buff == old(buff.buff) || fresh(buff.buff)
      ensures inBounds ==>
                && buff.Valid()
                && Continues(buff.Cfg(), old(buff.Layout()), HeaderWrites(headers, order) + rest, buff.Layout(), rest)
      ensures !inBounds ==> !RunAllowed(buff.Cfg(), old(buff.Layout()), HeaderWrites(headers, order) + rest)
    {
      ghost var c, start, all := buff.Cfg(), buff.Layout(), HeaderWrites(headers, order) + rest;
      ghost var left := all;
      var i := 0;
      assert order[0..] == order;
      while i < |order|
        invariant 0 <= i <= |order|
        invariant buff.Valid() && (buff.buff == old(buff.buff) || fresh(buff.buff))
        invariant left == HeaderWrites(headers, order[i..]) + rest
        invariant Continues(c, start, all, buff.Layout(), left)
      {
        HeaderWritesAt(headers, order, i, rest);
        inBounds := SerializeHeader(buff, order[i], headers[order[i]], left);
        if !inBounds { return; }
        left := left[4..];
        i := i + 1;
      }
      assert left == rest;
      inBounds := true;
    }

    method SerializeBody(buff: Buffer) returns (inBounds: bool)
      requires buff.Valid()
      modifies buff, buff.buff
      ensures buff.buff == old(buff.buff) || fresh(buff.buff)
      ensures inBounds <==> RunAllowed(buff.Cfg(), old(buff.Layout()), BodyWrites(Value().body))
      ensures inBounds ==> buff.Valid()
                           && buff.Layout() == Final(buff.Cfg(), old(buff.Layout()), BodyWrites(Value().body))
    {
      ghost var ops := BodyWrites(Value().body);
      inBounds := Emit(buff, CR_LF, ops);
      if inBounds && useBody {
        inBounds := Emit(buff, body, ops[1..]);
      }
    }

    /**
     * Prints the response behind whatever the buffer holds. `order` is the hash
     * map's iteration order. `inBounds` is false exactly if one of the appends
     * would run past the container; otherwise the buffer has gained the printed
     * response, which from an initially empty buffer is recovered exactly when
     * the headers are readable.
     */
    method Serialize(buff: Buffer, order: seq<string>) returns (inBounds: bool)
      requires Valid() && buff.Valid() && IsOrder(order, headers)
      modifies buff, buff.buff
      ensures buff.buff == old(buff.buff) || fresh(buff.buff)
      ensures Value() == old(Value())
      ensures inBounds <==> RunAllowed(buff.Cfg(), old(buff.Layout()), Writes(Value(), order))
      ensures inBounds ==> buff.Valid()
                           && buff.Layout() == Final(buff.Cfg(), old(buff.Layout()), Writes(Value(), order))
      ensures inBounds ==> buff.Layout().data == old(buff.Layout().data) + Print(Value(), order)
      ensures inBounds && old(buff.Layout().data) == "" ==>
                (Decode(buff.Layout().data) == Some(Meaning(Value()))
                 <==> forall n :: n in headers ==> ReadableHeader(n, headers[n]))
    {
      ghost var r, start := Value(), buff.Layout();
      inBounds := SerializeParts(buff, order);
      PhrasesFree(code);
      if inBounds {
        PrintedReadsBack(buff.Cfg(), start, r, order);
      }
    }

    method SerializeParts(buff: Buffer, order: seq<string>) returns (inBounds: bool)
      requires buff.Valid() && forall n :: n in order ==> n in headers
      modifies buff, buff.buff
      ensures buff.buff == old(buff.buff) || fresh(buff.buff)
      ensures inBounds <==> RunAllowed(buff.Cfg(), old(buff.Layout()), Writes(Value(), order))
      ensures inBounds ==> buff.Valid()
                           && buff.Layout() == Final(buff.Cfg(), old(buff.Layout()), Writes(Value(), order))
    {
      ghost var tail := BodyWrites(Value().body);
      ghost var ops := Writes(Value(), order);
      inBounds := SerializeStatusLine(buff, ops);
      if !inBounds { return; }
      assert ops[6..] == HeaderWrites(headers, order) + tail;
      inBounds := SerializeHeaders(buff, order, tail);
      if !inBounds { return; }
      inBounds := SerializeBody(buff);
    }
  }

  lemma {:induction false} NothingConsumed(c: Config, v: View, ops: seq<Op>)
    requires Wf(c, v) && RunAllowed(c, v, ops) && forall op :: op in ops ==> op.Append?
    ensures Consumed(c, v, ops) == ""
    decreases |ops|
  {
    if ops == [] {
    } else {
      ApplyIsQueueStep(c, v, ops[0]);
      NothingConsumed(c, Apply(c, v, ops[0]), ops[1..]);
    }
  }

  lemma HeaderWritesAppend(headers: map<string, string>, order: seq<string>)
    requires forall n :: n in order ==> n in headers
    ensures forall op :: op in HeaderWrites(headers, order) ==> op.Append?
  {
  }

  lemma AppendsConsumeNothing(c: Config, v: View, r: Response, order: seq<string>)
    requires forall n :: n in order ==> n in r.headers
    requires Wf(c, v) && RunAllowed(c, v, Writes(r, order))
    ensures Consumed(c, v, Writes(r, order)) == ""
  {
    HeaderWritesAppend(r.headers, order);
    NothingConsumed(c, v, Writes(r, order));
  }
}
