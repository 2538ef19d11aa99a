/** The response builder of the server and the request builder of the client, and what the other side makes of
  * their output.
  */
module HttpBuild {
  import Base64
  import opened Common
  import opened Http
  import opened HttpMessages

  datatype HttpResponse = HttpResponse(status: nat, statusText: Bytes, headers: seq<(Bytes, Bytes)>, body: Bytes,
      keepAlive: bool)

  function StatusLine(r: HttpResponse): (line: Bytes) { "HTTP/1.1 " + Decimal(r.status) + " " + r.statusText }

  function HeaderLine(header: (Bytes, Bytes)): (line: Bytes) { header.0 + ": " + header.1 }

  function HeaderLines(headers: seq<(Bytes, Bytes)>): (lines: seq<Bytes>)
    ensures |lines| == |headers| && forall i :: 0 <= i < |headers| ==> lines[i] == HeaderLine(headers[i])
  {
    seq(|headers|, i requires 0 <= i < |headers| => HeaderLine(headers[i]))
  }

  function ConnectionLine(keepAlive: bool): (line: Bytes)
  {
    if keepAlive then "Connection: keep-alive" else "Connection: close"
  }

  function LaterLines(r: HttpResponse, date: Bytes): (lines: seq<Bytes>)
  {
    ["Date: " + date] + HeaderLines(r.headers) + [ConnectionLine(r.keepAlive)]
  }

  function ResponseLines(r: HttpResponse, date: Bytes): (lines: seq<Bytes>)
  {
    [StatusLine(r)] + [LengthLine(|r.body|)] + LaterLines(r, date)
  }

  lemma {:induction false} HeadSnoc(lines: seq<Bytes>, line: Bytes)
    ensures Head(lines + [line]) == Head(lines) + line + CRLF
  {
    HeadAppend(lines, [line]);
    assert Head([line]) == line + CRLF + "";
  }

  /** `HttpResponse::build`: appends piece by piece to one buffer. */
  method Build(r: HttpResponse, date: Bytes) returns (buf: Bytes)
    ensures buf == Message(ResponseLines(r, date), r.body)
  {
    ghost var lines := [];
    buf := "";
    buf := buf + "HTTP/1.1 " + Decimal(r.status) + " " + r.statusText + CRLF;
    lines := AppendedLine(buf, lines, "", StatusLine(r));
    ghost var before := buf;
    buf := buf + "Content-Length: " + Decimal(|r.body|) + CRLF;
    lines := AppendedLine(buf, lines, before, LengthLine(|r.body|));
    before := buf;
    buf := buf + "Date: " + date + CRLF;
    lines := AppendedLine(buf, lines, before, "Date: " + date);
    buf := AppendHeaders(buf, r.headers, lines);
    lines := lines + HeaderLines(r.headers);
    before := buf;
    buf := buf + (if r.keepAlive then "Connection: keep-alive" else "Connection: close") + CRLF;
    lines := AppendedLine(buf, lines, before, ConnectionLine(r.keepAlive));
    assert lines == ResponseLines(r, date);
    buf := buf + CRLF;
    buf := buf + r.body;
  }

  method AppendHeaders(start: Bytes, headers: seq<(Bytes, Bytes)>, ghost lines: seq<Bytes>) returns (buf: Bytes)
    requires start == Head(lines)
    ensures buf == Head(lines + HeaderLines(headers))
  {
    buf := start;
    ghost var all := HeaderLines(headers);
    NoneYet(lines, all);
    for i := 0 to |headers|
      invariant buf == Head(lines + all[..i])
    {
      ghost var before := buf;
      buf := buf + headers[i].0 + ": " + headers[i].1 + CRLF;
      JoinParts(before, headers[i].0, ": ", headers[i].1, CRLF);
      OneMore(lines, all, i);
    }
  }

  lemma {:induction false} NoneYet(lines: seq<Bytes>, all: seq<Bytes>)
    ensures lines + all[..0] == lines && all[..|all|] == all
  {
  }

  lemma {:induction false} OneMore(lines: seq<Bytes>, all: seq<Bytes>, i: nat)
    requires i < |all|
    ensures Head(lines + all[..i + 1]) == Head(lines + all[..i]) + all[i] + CRLF
  {
    HeadSnoc(lines + all[..i], all[i]);
    assert lines + all[..i + 1] == lines + all[..i] + [all[i]];
  }

  lemma {:induction false} JoinParts(before: Bytes, a: Bytes, b: Bytes, c: Bytes, d: Bytes)
    ensures before + a + b + c + d == before + (a + b + c) + d
  {
  }

  lemma {:induction false} AppendedLine(buf: Bytes, lines: seq<Bytes>, before: Bytes, line: Bytes)
    returns (lines': seq<Bytes>)
    requires before == Head(lines) && buf == before + line + CRLF
    ensures lines' == lines + [line] && buf == Head(lines')
  {
    lines' := lines + [line];
    HeadSnoc(lines, line);
  }

  // ------------------------------------------------------------ requests

  const BODY_START: Bytes := "{\"jsonrpc\":\"2.0\",\"id\":"
  const BODY_TX: Bytes := ",\"method\":\"sendTransaction\",\"params\":{\"transaction\":\""
  const BODY_FANOUT: Bytes := "\",\"fanout\":"
  const BODY_SLOT: Bytes := ",\"target_slot\":"
  const BODY_END: Bytes := "}}"

  /** What comes before and after the transaction in the JSON-RPC body. */
  function BodyBefore(requestId: nat): (text: Bytes) { BODY_START + Decimal(requestId) + BODY_TX }

  function BodyAfter(fanout: nat, targetSlot: nat): (text: Bytes)
  {
    BODY_FANOUT + Decimal(fanout) + BODY_SLOT + Decimal(targetSlot) + BODY_END
  }

  /** The JSON-RPC body of a send-transaction request, with the transaction in base64. */
  function RequestBody(requestId: nat, tx: seq<Byte>, fanout: nat, targetSlot: nat): (body: Bytes)
  {
    BodyBefore(requestId) + Base64.Encoded(tx) + BodyAfter(fanout, targetSlot)
  }

  const REQUEST_LINE: Bytes := "POST / HTTP/1.1"
  const TYPE_LINE: Bytes := "Content-Type: application/json"

  function HostLine(host: Bytes): (line: Bytes) { "Host: " + host }

  function EarlierLines(host: Bytes): (lines: seq<Bytes>) { [REQUEST_LINE, HostLine(host), TYPE_LINE] }

  function RequestLines(host: Bytes, bodyLen: nat): (lines: seq<Bytes>)
  {
    EarlierLines(host) + [LengthLine(bodyLen)] + [ConnectionLine(true)]
  }

  /** `build_request`: the body is built first, taken out, and appended after the headers. */
  method BuildRequest(host: Bytes, requestId: nat, tx: seq<Byte>, fanout: nat, targetSlot: nat) returns (buf: Bytes)
    ensures var body := RequestBody(requestId, tx, fanout, targetSlot);
            buf == Message(RequestLines(host, |body|), body)
  {
    buf := BODY_START + Decimal(requestId) + BODY_TX;
    var text := Base64.Encode(tx);
    buf := buf + text;
    buf := buf + (BODY_FANOUT + Decimal(fanout) + BODY_SLOT + Decimal(targetSlot) + BODY_END);
    var body := buf;
    buf := BuildAround(host, body);
  }

  /** The transaction text between the two parts of the body decodes to the transaction. */
  lemma {:induction false} TransactionRecovered(requestId: nat, tx: seq<Byte>, fanout: nat, targetSlot: nat)
    ensures var body := RequestBody(requestId, tx, fanout, targetSlot);
            var lo, hi := |BodyBefore(requestId)|, |body| - |BodyAfter(fanout, targetSlot)|;
            && 0 <= lo <= hi <= |body| && Base64.Decoded(body[lo..hi]) == Base64.Ok(tx)
  {
    var body := RequestBody(requestId, tx, fanout, targetSlot);
    var lo, hi := |BodyBefore(requestId)|, |body| - |BodyAfter(fanout, targetSlot)|;
    assert body[lo..hi] == Base64.Encoded(tx);
    Base64.RoundTrip(tx);
  }

  method BuildAround(host: Bytes, body: Bytes) returns (buf: Bytes)
    ensures buf == Message(RequestLines(host, |body|), body)
  {
    ghost var lines := [];
    buf := REQUEST_LINE + CRLF;
    lines := AppendedLine(buf, lines, "", REQUEST_LINE);
    ghost var before := buf;
    buf := buf + "Host: " + host + CRLF;
    lines := AppendedLine(buf, lines, before, HostLine(host));
    before := buf;
    buf := buf + TYPE_LINE + CRLF;
    lines := AppendedLine(buf, lines, before, TYPE_LINE);
    before := buf;
    buf := buf + "Content-Length: " + Decimal(|body|) + CRLF;
    lines := AppendedLine(buf, lines, before, LengthLine(|body|));
    before := buf;
    buf := buf + ConnectionLine(true) + CRLF;
    lines := AppendedLine(buf, lines, before, ConnectionLine(true));
    assert lines == RequestLines(host, |body|);
    buf := buf + CRLF + body;
  }

  // ------------------------------------------------------------ framing in both directions

  /** Everything between the line ends is free of CR and LF. */
  ghost predicate HeadersClean(r: HttpResponse, date: Bytes)
  {
    && NoBreaks(r.statusText) && NoBreaks(date)
    && forall i :: 0 <= i < |r.headers| ==> NoBreaks(r.headers[i].0) && NoBreaks(r.headers[i].1)
  }

  lemma {:induction false} PlainJoin(a: Bytes, b: Bytes)
    requires Plain(a) && NoBreaks(b)
    ensures Plain(a + b)
  {
  }

  lemma {:induction false} StatusLinePlain(r: HttpResponse)
    requires NoBreaks(r.statusText)
    ensures Plain(StatusLine(r)) && Differs(StatusLine(r)) && StatusLine(r)[8] == ' '
  {
    var a := "HTTP/1.1 ";
    PlainJoin(a, Decimal(r.status));
    PlainJoin(a + Decimal(r.status), " ");
    PlainJoin(a + Decimal(r.status) + " ", r.statusText);
    assert Lower(StatusLine(r)[0]) != LENGTH_HEADER[0];
  }

  lemma {:induction false} LaterLinesPlain(r: HttpResponse, date: Bytes)
    requires HeadersClean(r, date)
    ensures AllPlain(LaterLines(r, date))
  {
    PlainJoin("Date: ", date);
    assert Plain(ConnectionLine(r.keepAlive));
    forall i | 0 <= i < |r.headers| ensures Plain(HeaderLine(r.headers[i])) {
      assert NoBreaks(r.headers[i].0 + ": ");
      PlainJoin(r.headers[i].0 + ": ", r.headers[i].1);
    }
  }

  /** Main theorem, server to client. For every status, headers and body, the client takes no proper prefix of
    * a built response for complete, takes the whole for complete, and gets exactly the body, even when the body
    * contains blank lines or the custom headers repeat Content-Length.
    */
  lemma {:induction false} ResponseFraming(r: HttpResponse, date: Bytes)
    requires HeadersClean(r, date) && |r.body| < U64
    ensures var m := Message(ResponseLines(r, date), r.body);
            && IsComplete(m) && (forall n: nat :: n < |m| ==> !IsComplete(m[..n]))
            && HeadersEnd(m, 0).Some? && m[HeadersEnd(m, 0).value + 4..] == r.body
  {
    StatusLinePlain(r);
    LaterLinesPlain(r, date);
    Framing([StatusLine(r)], LaterLines(r, date), r.body);
  }

  lemma {:induction false} RequestLinesPlain(host: Bytes)
    requires NoBreaks(host)
    ensures AllPlain(EarlierLines(host)) && AllDiffer(EarlierLines(host))
  {
    PlainJoin("Host: ", host);
    assert Plain(REQUEST_LINE) && Plain(TYPE_LINE);
    assert Lower(REQUEST_LINE[0]) != LENGTH_HEADER[0];
    assert Lower(HostLine(host)[0]) != LENGTH_HEADER[0];
    assert Lower(TYPE_LINE[8]) != LENGTH_HEADER[8];
  }

  /** Main theorem, client to server: the same for every host and body of a request. */
  lemma {:induction false} RequestFraming(host: Bytes, body: Bytes)
    requires NoBreaks(host) && |body| < U64
    ensures var m := Message(RequestLines(host, |body|), body);
            && IsComplete(m) && (forall n: nat :: n < |m| ==> !IsComplete(m[..n]))
            && HeadersEnd(m, 0).Some? && m[HeadersEnd(m, 0).value + 4..] == body
  {
    RequestLinesPlain(host);
    assert AllPlain([ConnectionLine(true)]);
    Framing(EarlierLines(host), [ConnectionLine(true)], body);
  }

  // ------------------------------------------------------------ the client's view of a response

  /** `get_http_status`: three digits after the first space of the first twelve bytes, 0 otherwise. */
  method GetHttpStatus(buf: Bytes) returns (status: nat)
    ensures status == HttpStatus(buf)
  {
    if |buf| < 12 {
      return 0;
    }
    var pos := 0;
    while pos < 12 && buf[pos] != ' '
      invariant pos <= 12 && FirstSpace(buf, 0) == FirstSpace(buf, pos)
    {
      pos := pos + 1;
    }
    if pos < 12 && pos + 4 <= |buf| {
      if IsDigit(buf[pos + 1]) && IsDigit(buf[pos + 2]) && IsDigit(buf[pos + 3]) {
        return DigitValue(buf[pos + 1]) * 100 + DigitValue(buf[pos + 2]) * 10 + DigitValue(buf[pos + 3]);
      }
    }
    return 0;
  }

  function FirstSpace(buf: Bytes, from: nat): (pos: nat)
    requires from <= 12 <= |buf|
    ensures from <= pos <= 12
    decreases 12 - from
  {
    if from < 12 && buf[from] != ' ' then FirstSpace(buf, from + 1) else from
  }

  function HttpStatus(buf: Bytes): (status: nat)
  {
    if |buf| < 12 then 0
    else
      var pos := FirstSpace(buf, 0);
      if pos < 12 && pos + 4 <= |buf| && IsDigit(buf[pos + 1]) && IsDigit(buf[pos + 2]) && IsDigit(buf[pos + 3])
      then DigitValue(buf[pos + 1]) * 100 + DigitValue(buf[pos + 2]) * 10 + DigitValue(buf[pos + 3]) else 0
  }

  lemma {:induction false} FirstSpaceAt(buf: Bytes, from: nat, pos: nat)
    requires from <= pos < 12 <= |buf| && buf[pos] == ' ' && forall i :: from <= i < pos ==> buf[i] != ' '
    ensures FirstSpace(buf, from) == pos
    decreases pos - from
  {
    if from < pos { FirstSpaceAt(buf, from + 1, pos); }
  }

  lemma {:induction false} ThreeDigits(n: nat)
    requires 100 <= n < 1000
    ensures |Decimal(n)| == 3 && Decimal(n)[0] == DigitChar(n / 100) && Decimal(n)[1] == DigitChar(n / 10 % 10)
            && Decimal(n)[2] == DigitChar(n % 10)
  {
    DecimalLast(n);
    DecimalLast(n / 10);
    DecimalLast(n / 100);
    assert n / 10 / 10 == n / 100;
    assert Decimal(n / 100) == [DigitChar(n / 100)];
    assert Decimal(n / 10) == Decimal(n / 10 / 10) + [DigitChar(n / 10 % 10)];
  }

  /** The client reads back the status the server set. */
  lemma {:induction false} StatusRecovered(r: HttpResponse, date: Bytes)
    requires 100 <= r.status < 1000
    ensures HttpStatus(Message(ResponseLines(r, date), r.body)) == r.status
  {
    var rest := " " + r.statusText + CRLF + Head(ResponseLines(r, date)[1..]) + CRLF + r.body;
    assert Message(ResponseLines(r, date), r.body) == "HTTP/1.1 " + (Decimal(r.status) + rest);
    StatusAfterVersion(Decimal(r.status), rest, r.status);
  }

  lemma {:induction false} StatusAfterVersion(d: Bytes, rest: Bytes, status: nat)
    requires 100 <= status < 1000 && d == Decimal(status)
    ensures HttpStatus("HTTP/1.1 " + (d + rest)) == status
  {
    var version := "HTTP/1.1 ";
    var m := version + (d + rest);
    ThreeDigits(status);
    assert forall i :: 0 <= i < 9 ==> m[i] == version[i];
    assert m[9] == d[0] && m[10] == d[1] && m[11] == d[2];
    FirstSpaceAt(m, 0, 8);
  }
}
