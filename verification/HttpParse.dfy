/** The server's request parser (server/src/http.rs) and the round trip with the client's builder. */
module HttpParse {
  import Base64
  import opened Common
  import opened Http
  import opened HttpMessages
  import opened HttpBuild
  import opened Text

  datatype HttpError =
    | Unfinished | InvalidUtf8 | EmptyRequest | BadRequestLine | BadHeader | BadLength
    | ShortBody(expected: nat, got: nat) | MissingBody

  datatype Result<T> = Ok(value: T) | Err(error: HttpError)

  datatype HttpRequest = HttpRequest(verb: Bytes, path: Bytes, headers: seq<(Bytes, Bytes)>, body: Bytes,
      connectionClose: bool)

  // ------------------------------------------------------------ text

  /** First two bytes of a three-byte UTF-8 sequence (section 4 of RFC 3629). */
  predicate Lead3(b0: char, b1: char)
  {
    || (Between(b0, 0xE0, 0xE0) && Between(b1, 0xA0, 0xBF))
    || (Between(b0, 0xE1, 0xEC) && Between(b1, 0x80, 0xBF))
    || (Between(b0, 0xED, 0xED) && Between(b1, 0x80, 0x9F))
    || (Between(b0, 0xEE, 0xEF) && Between(b1, 0x80, 0xBF))
  }

  predicate Lead4(b0: char, b1: char)
  {
    || (Between(b0, 0xF0, 0xF0) && Between(b1, 0x90, 0xBF))
    || (Between(b0, 0xF1, 0xF3) && Between(b1, 0x80, 0xBF))
    || (Between(b0, 0xF4, 0xF4) && Between(b1, 0x80, 0x8F))
  }

  /** Length of the well-formed UTF-8 sequence `b` starts with; 0 if there is none. */
  function Utf8Width(b: Bytes): (w: nat)
    requires b != ""
    ensures w <= |b|
  {
    if Between(b[0], 0, 0x7F) then 1
    else if |b| >= 2 && Between(b[0], 0xC2, 0xDF) && Between(b[1], 0x80, 0xBF) then 2
    else if |b| >= 3 && Lead3(b[0], b[1]) && Between(b[2], 0x80, 0xBF) then 3
    else if |b| >= 4 && Lead4(b[0], b[1]) && Between(b[2], 0x80, 0xBF) && Between(b[3], 0x80, 0xBF) then 4
    else 0
  }

  predicate Utf8(b: Bytes)
    decreases |b|
  {
    b == "" || (Utf8Width(b) > 0 && Utf8(b[Utf8Width(b)..]))
  }

  function StripCr(s: Bytes): (t: Bytes) { if s != "" && s[|s| - 1] == '\r' then s[..|s| - 1] else s }

  /** `str::lines`: ends at LF, one CR before it dropped; no empty last line. */
  function Lines(s: Bytes): (lines: seq<Bytes>)
    decreases |s|
  {
    if s == "" then []
    else
      var k := IndexOf(s, '\n');
      if k == |s| then [s] else [StripCr(s[..k])] + Lines(s[k + 1..])
  }

  function WordLength(s: Bytes): (k: nat)
    ensures k <= |s|
  {
    if s == "" || SpaceAtStart(s) > 0 then 0 else 1 + WordLength(s[1..])
  }

  /** `split_whitespace`. */
  function Words(s: Bytes): (words: seq<Bytes>)
    decreases |s|
  {
    if s == "" then []
    else if SpaceAtStart(s) > 0 then Words(s[SpaceAtStart(s)..])
    else [s[..WordLength(s)]] + Words(s[WordLength(s)..])
  }

  predicate EqIgnoreCase(a: Bytes, b: Bytes)
  {
    |a| == |b| && forall i :: 0 <= i < |a| ==> Lower(a[i]) == Lower(b[i])
  }

  predicate AllDigits(s: Bytes) { forall i :: 0 <= i < |s| ==> IsDigit(s[i]) }

  function DigitsValue(s: Bytes): (n: nat)
    requires AllDigits(s)
  {
    if s == "" then 0 else DigitsValue(s[..|s| - 1]) * 10 + DigitValue(s[|s| - 1])
  }

  /** `str::parse::<usize>`: digits after an optional plus sign, and no overflow. */
  function ParseUsize(s: Bytes): (r: Option<nat>)
  {
    var digits := if |s| > 1 && s[0] == '+' then s[1..] else s;
    if digits != "" && AllDigits(digits) && DigitsValue(digits) < U64 then Some(DigitsValue(digits)) else None
  }

  // ------------------------------------------------------------ the parser

  function ParseHeaderLine(line: Bytes): (r: Result<(Bytes, Bytes)>)
  {
    var pos := IndexOf(line, ':');
    if pos == |line| then Err(BadHeader) else Ok((Trim(line[..pos]), Trim(line[pos + 1..])))
  }

  /** What has been gathered from the header lines so far. */
  datatype Fields = Fields(headers: seq<(Bytes, Bytes)>, contentLength: nat, close: bool)

  function OnHeader(f: Fields, line: Bytes): (r: Result<Fields>)
  {
    if line == "" then Ok(f)
    else match ParseHeaderLine(line)
      case Err(e) => Err(e)
      case Ok(header) =>
        var all := f.headers + [header];
        if EqIgnoreCase(header.0, "content-length") then
          (match ParseUsize(header.1) case None => Err(BadLength) case Some(n) => Ok(Fields(all, n, f.close)))
        else if EqIgnoreCase(header.0, "connection") then
          Ok(Fields(all, f.contentLength, EqIgnoreCase(header.1, "close")))
        else Ok(f.(headers := all))
  }

  function OnHeaders(f: Fields, lines: seq<Bytes>): (r: Result<Fields>)
    decreases |lines|
  {
    if lines == [] then Ok(f)
    else match OnHeader(f, lines[0])
      case Err(e) => Err(e)
      case Ok(g) => OnHeaders(g, lines[1..])
  }

  const NO_FIELDS: Fields := Fields([], 0, false)

  function TakeBody(buf: Bytes, bodyStart: nat, n: nat): (r: Result<Bytes>)
  {
    if bodyStart < |buf| then
      if |buf| - bodyStart >= n then Ok(buf[bodyStart..bodyStart + n]) else Err(ShortBody(n, |buf| - bodyStart))
    else if n == 0 then Ok("") else Err(MissingBody)
  }

  function ParseLines(lines: seq<Bytes>, buf: Bytes, bodyStart: nat): (r: Result<HttpRequest>)
  {
    if lines == [] then Err(EmptyRequest)
    else if |Words(lines[0])| < 3 then Err(BadRequestLine)
    else match OnHeaders(NO_FIELDS, lines[1..])
      case Err(e) => Err(e)
      case Ok(f) =>
        match TakeBody(buf, bodyStart, f.contentLength)
        case Err(e) => Err(e)
        case Ok(body) => Ok(HttpRequest(Words(lines[0])[0], Words(lines[0])[1], f.headers, body, f.close))
  }

  function Parsed(buf: Bytes): (r: Result<HttpRequest>)
  {
    match HeadersEnd(buf, 0)
    case None => Err(Unfinished)
    case Some(e) => if Utf8(buf[..e]) then ParseLines(Lines(buf[..e]), buf, e + 4) else Err(InvalidUtf8)
  }

  /** `HttpRequest::parse`. */
  method Parse(buf: Bytes) returns (r: Result<HttpRequest>)
    ensures r == Parsed(buf)
  {
    var end := FindHeadersEnd(buf);
    if end.None? {
      return Err(Unfinished);
    }
    var headersEnd := end.value;
    if !Utf8(buf[..headersEnd]) {
      return Err(InvalidUtf8);
    }
    var lines := Lines(buf[..headersEnd]);
    if lines == [] {
      return Err(EmptyRequest);
    }
    var parts := Words(lines[0]);
    if |parts| < 3 {
      return Err(BadRequestLine);
    }
    var headers, contentLength, connectionClose := [], 0, false;
    for i := 1 to |lines|
      invariant OnHeaders(NO_FIELDS, lines[1..])
                == OnHeaders(Fields(headers, contentLength, connectionClose), lines[i..])
    {
      var line := lines[i];
      assert lines[i..][1..] == lines[i + 1..];
      if line == "" {
        continue;
      }
      var parsed := ParseHeaderLine(line);
      if parsed.Err? {
        return Err(parsed.error);
      }
      var (name, value) := parsed.value;
      if EqIgnoreCase(name, "content-length") {
        var n := ParseUsize(value);
        if n.None? {
          return Err(BadLength);
        }
        contentLength := n.value;
      } else if EqIgnoreCase(name, "connection") {
        connectionClose := EqIgnoreCase(value, "close");
      }
      headers := headers + [(name, value)];
    }
    var body := TakeBody(buf, headersEnd + 4, contentLength);
    if body.Err? {
      return Err(body.error);
    }
    return Ok(HttpRequest(parts[0], parts[1], headers, body.value, connectionClose));
  }

  // ------------------------------------------------------------ facts about text

  lemma {:induction false} Utf8Join(a: Bytes, b: Bytes)
    requires Utf8(a) && Utf8(b)
    ensures Utf8(a + b)
    decreases |a|
  {
    if a == "" {
      assert a + b == b;
    } else {
      var w := Utf8Width(a);
      WidthKept(a, b);
      assert (a + b)[w..] == a[w..] + b;
      Utf8Join(a[w..], b);
    }
  }

  lemma {:induction false} WidthKept(a: Bytes, b: Bytes)
    requires a != "" && Utf8Width(a) > 0
    ensures Utf8Width(a + b) == Utf8Width(a)
  {
    assert forall i :: 0 <= i < |a| ==> (a + b)[i] == a[i];
  }

  predicate Ascii(b: Bytes) { forall i :: 0 <= i < |b| ==> Between(b[i], 0, 0x7F) }

  lemma {:induction false} AsciiIsUtf8(b: Bytes)
    requires Ascii(b)
    ensures Utf8(b)
  {
    if b != "" {
      assert Between(b[0], 0, 0x7F) && Utf8Width(b) == 1;
      AsciiIsUtf8(b[1..]);
    }
  }

  lemma {:induction false} DecimalValue(n: nat)
    ensures DigitsValue(Decimal(n)) == n
  {
    DecimalLast(n);
    if n >= 10 {
      DecimalValue(n / 10);
    } else {
      assert Decimal(n)[..0] == "";
    }
  }

  lemma {:induction false} ParseDecimal(n: nat)
    requires n < U64
    ensures ParseUsize(Decimal(n)) == Some(n)
  {
    DecimalValue(n);
    assert IsDigit(Decimal(n)[0]);
  }

  /** The header text without its last line end splits back into the lines it was made of. */
  lemma {:induction false} LinesOfHead(lines: seq<Bytes>)
    requires AllPlain(lines) && lines != []
    ensures |Head(lines)| >= 2 && Lines(Head(lines)[..|Head(lines)| - 2]) == lines
    decreases |lines|
  {
    assert Plain(lines[0]);
    if |lines| == 1 {
      OnlyLine(lines, lines[0]);
    } else {
      LinesOfHead(lines[1..]);
      LinesOfMore(lines, Head(lines[1..]));
    }
  }

  lemma {:induction false} LinesOfMore(lines: seq<Bytes>, rest: Bytes)
    requires |lines| > 1 && Plain(lines[0]) && rest == Head(lines[1..])
    requires |rest| >= 2 && Lines(rest[..|rest| - 2]) == lines[1..]
    ensures |Head(lines)| >= 2 && Lines(Head(lines)[..|Head(lines)| - 2]) == lines
  {
    HeadUnfold(lines);
    LinesStep(lines[0], rest, lines[1..]);
  }

  lemma {:induction false} HeadUnfold(lines: seq<Bytes>)
    requires lines != []
    ensures Head(lines) == lines[0] + CRLF + Head(lines[1..]) && [lines[0]] + lines[1..] == lines
  {
  }

  lemma {:induction false} OnlyLine(lines: seq<Bytes>, line: Bytes)
    requires Plain(line) && lines == [line]
    ensures |Head(lines)| >= 2 && Lines(Head(lines)[..|Head(lines)| - 2]) == lines
  {
    LastLine(line);
    assert Head(lines) == line + CRLF;
    assert (line + CRLF)[..|line|] == line;
  }

  lemma {:induction false} LinesStep(line: Bytes, rest: Bytes, lines: seq<Bytes>)
    requires Plain(line) && |rest| >= 2 && Lines(rest[..|rest| - 2]) == lines
    ensures var text := line + CRLF + rest; Lines(text[..|text| - 2]) == [line] + lines
  {
    FirstLine(line, rest[..|rest| - 2]);
    CutAfterLine(line, rest);
  }

  lemma {:induction false} CutAfterLine(line: Bytes, rest: Bytes)
    requires |rest| >= 2
    ensures var text := line + CRLF + rest; text[..|text| - 2] == line + CRLF + rest[..|rest| - 2]
  {
  }

  lemma {:induction false} LastLine(line: Bytes)
    requires Plain(line)
    ensures Lines(line) == [line]
  {
    assert IndexOf(line, '\n') == |line|;
  }

  lemma {:induction false} FirstLine(line: Bytes, rest: Bytes)
    requires Plain(line)
    ensures Lines(line + CRLF + rest) == [line] + Lines(rest)
  {
    var text, k := line + CRLF + rest, |line| + 1;
    IndexOfIs(text, '\n', k);
    LinesUnfold(text, k);
    FirstLineText(line, rest);
  }

  lemma {:induction false} LinesUnfold(s: Bytes, k: nat)
    requires s != "" && k == IndexOf(s, '\n') && k < |s|
    ensures Lines(s) == [StripCr(s[..k])] + Lines(s[k + 1..])
  {
  }

  lemma {:induction false} FirstLineText(line: Bytes, rest: Bytes)
    ensures var text := line + CRLF + rest; StripCr(text[..|line| + 1]) == line && text[|line| + 2..] == rest
  {
    var text := line + CRLF + rest;
    assert text[..|line| + 1] == line + "\r";
  }

  lemma {:induction false} FirstWord(word: Bytes, rest: Bytes)
    requires word != "" && (forall i :: 0 <= i < |word| ==> Visible(word[i])) && (rest == "" || SpaceAtStart(rest) > 0)
    ensures Words(word + rest) == [word] + Words(rest)
  {
    WordLengthIs(word, rest);
    assert SpaceAtStart(word + rest) == 0;
    assert (word + rest)[..|word|] == word && (word + rest)[|word|..] == rest;
  }

  lemma {:induction false} WordLengthIs(word: Bytes, rest: Bytes)
    requires (forall i :: 0 <= i < |word| ==> Visible(word[i])) && (rest == "" || SpaceAtStart(rest) > 0)
    ensures WordLength(word + rest) == |word|
  {
    if word == "" {
      assert word + rest == rest;
    } else {
      assert (word + rest)[1..] == word[1..] + rest;
      assert SpaceAtStart(word + rest) == 0;
      WordLengthIs(word[1..], rest);
    }
  }

  // ------------------------------------------------------------ round trip

  predicate NoSpaces(s: Bytes) { s != "" && forall i :: 0 <= i < |s| ==> Visible(s[i]) }

  lemma {:induction false} ThreeWords(a: Bytes, b: Bytes, c: Bytes, space: Bytes)
    requires NoSpaces(a) && NoSpaces(b) && NoSpaces(c) && |space| == 1 && IsSpace(space[0])
    ensures Words(a + (space + (b + (space + (c + ""))))) == [a, b, c]
  {
    FirstWord(c, "");
    var rest := space + (c + "");
    assert rest[1..] == c + "";
    FirstWord(b, rest);
    var rest' := space + (b + rest);
    assert rest'[1..] == b + rest;
    FirstWord(a, rest');
  }

  /** A header name: no space at either end, no colon. */
  predicate Token(name: Bytes)
  {
    Trimmed(name) && forall i :: 0 <= i < |name| ==> name[i] != ':'
  }

  lemma {:induction false} NamedHeader(name: Bytes, value: Bytes)
    requires Token(name)
    ensures ParseHeaderLine(name + ": " + value) == Ok((name, Trim(" " + value)))
  {
    var line := name + ": " + value;
    IndexOfIs(line, ':', |name|);
    assert line[..|name|] == name && line[|name| + 1..] == " " + value;
    TrimIsIdentity(name);
  }

  lemma {:induction false} OtherHeader(f: Fields, name: Bytes, value: Bytes)
    requires Token(name) && !EqIgnoreCase(name, "content-length") && !EqIgnoreCase(name, "connection")
    ensures OnHeader(f, name + ": " + value) == Ok(f.(headers := f.headers + [(name, Trim(" " + value))]))
  {
    NamedHeader(name, value);
  }

  lemma {:induction false} LengthHeader(f: Fields, name: Bytes, n: nat)
    requires Token(name) && EqIgnoreCase(name, "content-length") && n < U64
    ensures OnHeader(f, name + ": " + Decimal(n)) == Ok(Fields(f.headers + [(name, Decimal(n))], n, f.close))
  {
    LengthParsed(name, n);
  }

  lemma {:induction false} LengthParsed(name: Bytes, n: nat)
    requires Token(name) && n < U64
    ensures ParseHeaderLine(name + ": " + Decimal(n)) == Ok((name, Decimal(n))) && ParseUsize(Decimal(n)) == Some(n)
  {
    var d := Decimal(n);
    NamedHeader(name, d);
    assert IsDigit(d[0]) && IsDigit(d[|d| - 1]);
    TrimDropsSpace(d);
    ParseDecimal(n);
  }

  lemma {:induction false} ConnectionHeader(f: Fields, name: Bytes, value: Bytes)
    requires Token(name) && EqIgnoreCase(name, "connection") && Trimmed(value)
    ensures OnHeader(f, name + ": " + value)
            == Ok(Fields(f.headers + [(name, value)], f.contentLength, EqIgnoreCase(value, "close")))
  {
    NamedHeader(name, value);
    TrimDropsSpace(value);
    assert |name| == 10;
  }

  /** Host, type, length and connection, in this order. */
  lemma {:induction false} FourHeaders(lines: seq<Bytes>, a: Bytes, av: Bytes, b: Bytes, bv: Bytes, c: Bytes, n: nat,
      d: Bytes, dv: Bytes)
    requires lines == [a + ": " + av, b + ": " + bv, c + ": " + Decimal(n), d + ": " + dv] && n < U64
    requires Token(a) && !EqIgnoreCase(a, "content-length") && !EqIgnoreCase(a, "connection")
    requires Token(b) && !EqIgnoreCase(b, "content-length") && !EqIgnoreCase(b, "connection") && Trimmed(bv)
    requires Token(c) && EqIgnoreCase(c, "content-length") && Token(d) && EqIgnoreCase(d, "connection") && Trimmed(dv)
    ensures OnHeaders(NO_FIELDS, lines)
         == Ok(Fields([(a, Trim(" " + av)), (b, bv), (c, Decimal(n)), (d, dv)], n, EqIgnoreCase(dv, "close")))
  {
    var f1, f2 := FirstTwo(a, av, b, bv);
    var f3, f4 := LastTwo(f2, c, n, d, dv);
    FourSteps(NO_FIELDS, f1, f2, f3, f4, lines);
    assert f4.headers == [(a, Trim(" " + av)), (b, bv), (c, Decimal(n)), (d, dv)];
  }

  lemma {:induction false} LastTwo(f2: Fields, c: Bytes, n: nat, d: Bytes, dv: Bytes) returns (f3: Fields, f4: Fields)
    requires Token(c) && EqIgnoreCase(c, "content-length") && Token(d) && EqIgnoreCase(d, "connection") && Trimmed(dv)
    requires n < U64
    ensures OnHeader(f2, c + ": " + Decimal(n)) == Ok(f3) && OnHeader(f3, d + ": " + dv) == Ok(f4)
    ensures f4 == Fields(f2.headers + [(c, Decimal(n)), (d, dv)], n, EqIgnoreCase(dv, "close"))
  {
    f3 := Fields(f2.headers + [(c, Decimal(n))], n, f2.close);
    LengthHeader(f2, c, n);
    f4 := Fields(f3.headers + [(d, dv)], n, EqIgnoreCase(dv, "close"));
    ConnectionHeader(f3, d, dv);
  }

  lemma {:induction false} FirstTwo(a: Bytes, av: Bytes, b: Bytes, bv: Bytes) returns (f1: Fields, f2: Fields)
    requires Token(a) && !EqIgnoreCase(a, "content-length") && !EqIgnoreCase(a, "connection")
    requires Token(b) && !EqIgnoreCase(b, "content-length") && !EqIgnoreCase(b, "connection") && Trimmed(bv)
    ensures OnHeader(NO_FIELDS, a + ": " + av) == Ok(f1) && OnHeader(f1, b + ": " + bv) == Ok(f2)
    ensures f2 == Fields([(a, Trim(" " + av)), (b, bv)], 0, false)
  {
    f1 := NO_FIELDS.(headers := NO_FIELDS.headers + [(a, Trim(" " + av))]);
    OtherHeader(NO_FIELDS, a, av);
    f2 := f1.(headers := f1.headers + [(b, bv)]);
    OtherHeader(f1, b, bv);
    TrimDropsSpace(bv);
  }

  lemma {:induction false} FourSteps(f0: Fields, f1: Fields, f2: Fields, f3: Fields, f4: Fields, lines: seq<Bytes>)
    requires |lines| == 4 && OnHeader(f0, lines[0]) == Ok(f1) && OnHeader(f1, lines[1]) == Ok(f2)
    requires OnHeader(f2, lines[2]) == Ok(f3) && OnHeader(f3, lines[3]) == Ok(f4)
    ensures OnHeaders(f0, lines) == Ok(f4)
  {
    assert OnHeaders(f3, lines[3..]) == Ok(f4);
    assert lines[2..][1..] == lines[3..];
    assert OnHeaders(f2, lines[2..]) == Ok(f4);
    assert lines[1..][1..] == lines[2..];
  }

  function RequestHeaders(host: Bytes, n: nat): (headers: seq<(Bytes, Bytes)>)
  {
    [("Host", Trim(" " + host)), ("Content-Type", "application/json"), ("Content-Length", Decimal(n)),
        ("Connection", "keep-alive")]
  }

  lemma {:induction false} HeadersParsed(host: Bytes, n: nat)
    requires n < U64
    ensures OnHeaders(NO_FIELDS, RequestLines(host, n)[1..]) == Ok(Fields(RequestHeaders(host, n), n, false))
  {
    var a, b, bv, c, d, dv := HeaderParts(host, n);
    FourHeaders(RequestLines(host, n)[1..], a, host, b, bv, c, n, d, dv);
  }

  /** The four header lines of a request as names and values. */
  lemma {:induction false} HeaderParts(host: Bytes, n: nat)
      returns (a: Bytes, b: Bytes, bv: Bytes, c: Bytes, d: Bytes, dv: Bytes)
    ensures RequestLines(host, n)[1..] == [a + ": " + host, b + ": " + bv, c + ": " + Decimal(n), d + ": " + dv]
    ensures Token(a) && !EqIgnoreCase(a, "content-length") && !EqIgnoreCase(a, "connection")
    ensures Token(b) && !EqIgnoreCase(b, "content-length") && !EqIgnoreCase(b, "connection") && Trimmed(bv)
    ensures Token(c) && EqIgnoreCase(c, "content-length")
    ensures Token(d) && EqIgnoreCase(d, "connection") && Trimmed(dv) && !EqIgnoreCase(dv, "close")
    ensures [a, b, bv, c, d, dv]
         == ["Host", "Content-Type", "application/json", "Content-Length", "Connection", "keep-alive"]
  {
    a, b, bv := "Host", "Content-Type", "application/json";
    c, d, dv := "Content-Length", "Connection", "keep-alive";
    HostLineParts(host, a);
    TypeLineParts(b, bv);
    LengthLineParts(n, c);
    ConnectionLineParts(d, dv);
  }

  lemma {:induction false} HostLineParts(host: Bytes, name: Bytes)
    requires name == "Host"
    ensures HostLine(host) == name + ": " + host && Token(name)
  {
  }

  lemma {:induction false} TypeLineParts(name: Bytes, value: Bytes)
    requires name == "Content-Type" && value == "application/json"
    ensures TYPE_LINE == name + ": " + value && Token(name) && Trimmed(value)
  {
  }

  lemma {:induction false} LengthLineParts(n: nat, name: Bytes)
    requires name == "Content-Length"
    ensures LengthLine(n) == name + ": " + Decimal(n) && Token(name) && EqIgnoreCase(name, "content-length")
  {
  }

  lemma {:induction false} ConnectionLineParts(name: Bytes, value: Bytes)
    requires name == "Connection" && value == "keep-alive"
    ensures ConnectionLine(true) == name + ": " + value && Token(name) && EqIgnoreCase(name, "connection")
    ensures Trimmed(value) && !EqIgnoreCase(value, "close")
  {
  }

  predicate AllUtf8(lines: seq<Bytes>) { forall i :: 0 <= i < |lines| ==> Utf8(lines[i]) }

  /** Header text made of UTF-8 lines is UTF-8. */
  lemma {:induction false} CutIsUtf8(lines: seq<Bytes>)
    requires AllUtf8(lines) && lines != []
    ensures |Head(lines)| >= 2 && Utf8(Head(lines)[..|Head(lines)| - 2])
  {
    HeadUnfold(lines);
    if |lines| == 1 {
      assert Head(lines)[..|Head(lines)| - 2] == lines[0];
    } else {
      var rest := Head(lines[1..]);
      CutIsUtf8(lines[1..]);
      LineThenText(lines[0], CRLF, rest[..|rest| - 2]);
      assert Head(lines)[..|Head(lines)| - 2] == lines[0] + CRLF + rest[..|rest| - 2];
    }
  }

  lemma {:induction false} LineThenText(line: Bytes, break_: Bytes, text: Bytes)
    requires Utf8(line) && Ascii(break_) && Utf8(text)
    ensures Utf8(line + break_ + text)
  {
    AsciiIsUtf8(break_);
    Utf8Join(line, break_);
    Utf8Join(line + break_, text);
  }

  lemma {:induction false} RequestLinesUtf8(host: Bytes, n: nat)
    requires Utf8(host)
    ensures AllUtf8(RequestLines(host, n))
  {
    var lines := RequestLines(host, n);
    forall i | 0 <= i < |lines| ensures Utf8(lines[i]) {
      if i == 1 {
        HostUtf8("Host: ", host);
      } else {
        RequestLineAscii(host, n, i);
        AsciiIsUtf8(lines[i]);
      }
    }
  }

  lemma {:induction false} HostUtf8(name: Bytes, host: Bytes)
    requires Ascii(name) && Utf8(host)
    ensures Utf8(name + host)
  {
    AsciiIsUtf8(name);
    Utf8Join(name, host);
  }

  lemma {:induction false} RequestLineAscii(host: Bytes, n: nat, i: nat)
    requires i < 5 && i != 1
    ensures Ascii(RequestLines(host, n)[i])
  {
    FixedLinesAscii();
    LengthLineAscii(n, "Content-Length: ");
  }

  lemma {:induction false} FixedLinesAscii()
    ensures Ascii(REQUEST_LINE) && Ascii(TYPE_LINE) && Ascii(ConnectionLine(true))
  {
    ConnectionAscii();
  }

  lemma {:induction false} ConnectionAscii()
    ensures Ascii(ConnectionLine(true))
  {
  }

  lemma {:induction false} LengthLineAscii(n: nat, name: Bytes)
    requires Ascii(name)
    ensures Ascii(name + Decimal(n))
  {
    var d := Decimal(n);
    forall i | 0 <= i < |name + d| ensures Between((name + d)[i], 0, 0x7F) {
      assert i < |name| || IsDigit(d[i - |name|]);
    }
  }

  /** Main theorem. The server's parser gives back method, path, headers and body of every request the client
    * builds, byte for byte, for every host name without line breaks and every body.
    */
  lemma {:induction false} RequestRoundTrip(host: Bytes, body: Bytes)
    requires NoBreaks(host) && Utf8(host) && |body| < U64
    ensures Parsed(Message(RequestLines(host, |body|), body))
            == Ok(HttpRequest("POST", "/", RequestHeaders(host, |body|), body, false))
  {
    var lines := RequestLines(host, |body|);
    var m := Message(lines, body);
    RequestPlain(host, |body|);
    RequestLinesUtf8(host, |body|);
    var e := MessageParts(lines, body);
    RequestWords(lines[0]);
    HeadersParsed(host, |body|);
    ParsedIs(m, e, lines, ["POST", "/", "HTTP/1.1"], Fields(RequestHeaders(host, |body|), |body|, false));
  }

  /** The transaction arrives: the text between the fixed parts of the parsed body decodes to the bytes sent. */
  lemma {:induction false} TransactionArrives(host: Bytes, requestId: nat, tx: seq<Byte>, fanout: nat, targetSlot: nat)
    requires NoBreaks(host) && Utf8(host) && |RequestBody(requestId, tx, fanout, targetSlot)| < U64
    ensures var body := RequestBody(requestId, tx, fanout, targetSlot);
            var parsed := Parsed(Message(RequestLines(host, |body|), body));
            var lo, hi := |BodyBefore(requestId)|, |body| - |BodyAfter(fanout, targetSlot)|;
            && parsed.Ok? && |parsed.value.body| == |body| && 0 <= lo <= hi <= |body|
            && Base64.Decoded(parsed.value.body[lo..hi]) == Base64.Ok(tx)
  {
    RequestRoundTrip(host, RequestBody(requestId, tx, fanout, targetSlot));
    TransactionRecovered(requestId, tx, fanout, targetSlot);
  }

  /** What the parser sees of a message: its header text ends after the last line and splits into the lines. */
  lemma {:induction false} MessageParts(lines: seq<Bytes>, body: Bytes) returns (e: nat)
    requires AllPlain(lines) && AllUtf8(lines) && lines != []
    ensures var m := Message(lines, body);
            && HeadersEnd(m, 0) == Some(e) && e + 2 == |Head(lines)| && m[..e] == Head(lines)[..e]
            && Utf8(m[..e]) && Lines(m[..e]) == lines && m[e + 4..] == body
  {
    EndAfterHead(lines, body);
    CutIsUtf8(lines);
    LinesOfHead(lines);
    e := |Head(lines)| - 2;
    var m := Message(lines, body);
    assert m[..e] == Head(lines)[..e] && m[e + 4..] == body;
  }

  lemma {:induction false} RequestWords(line: Bytes)
    requires line == REQUEST_LINE
    ensures Words(line) == ["POST", "/", "HTTP/1.1"]
  {
    var verb, path, version, space := RequestLineParts(line);
    ThreeWords(verb, path, version, space);
  }

  /** The request line is three words with single spaces between them. */
  lemma {:induction false} RequestLineParts(line: Bytes)
      returns (verb: Bytes, path: Bytes, version: Bytes, space: Bytes)
    requires line == REQUEST_LINE
    ensures NoSpaces(verb) && NoSpaces(path) && NoSpaces(version) && |space| == 1 && IsSpace(space[0])
    ensures line == verb + (space + (path + (space + (version + ""))))
    ensures [verb, path, version] == ["POST", "/", "HTTP/1.1"]
  {
    verb, path, version, space := "POST", "/", "HTTP/1.1", " ";
    assert line == verb + (space + (path + (space + (version + ""))));
  }

  lemma {:induction false} ParsedIs(m: Bytes, e: nat, lines: seq<Bytes>, words: seq<Bytes>, f: Fields)
    requires HeadersEnd(m, 0) == Some(e) && Utf8(m[..e]) && Lines(m[..e]) == lines && lines != []
    requires Words(lines[0]) == words && |words| == 3 && OnHeaders(NO_FIELDS, lines[1..]) == Ok(f)
    requires f.contentLength == |m| - (e + 4)
    ensures Parsed(m) == Ok(HttpRequest(words[0], words[1], f.headers, m[e + 4..], f.close))
  {
    TakeRest(m, e + 4);
    ParseLinesIs(lines, m, e + 4, words, f, m[e + 4..]);
    ParsedFrom(m, e);
  }

  lemma {:induction false} ParsedFrom(m: Bytes, e: nat)
    requires HeadersEnd(m, 0) == Some(e) && Utf8(m[..e])
    ensures Parsed(m) == ParseLines(Lines(m[..e]), m, e + 4)
  {
  }

  lemma {:induction false} TakeRest(m: Bytes, start: nat)
    requires start <= |m|
    ensures TakeBody(m, start, |m| - start) == Ok(m[start..])
  {
    assert m[start..] == m[start..start + (|m| - start)];
  }

  lemma {:induction false} ParseLinesIs(lines: seq<Bytes>, m: Bytes, start: nat, words: seq<Bytes>, f: Fields,
      body: Bytes)
    requires lines != [] && Words(lines[0]) == words && |words| == 3 && OnHeaders(NO_FIELDS, lines[1..]) == Ok(f)
    requires TakeBody(m, start, f.contentLength) == Ok(body)
    ensures ParseLines(lines, m, start) == Ok(HttpRequest(words[0], words[1], f.headers, body, f.close))
  {
  }

  lemma {:induction false} RequestPlain(host: Bytes, n: nat)
    requires NoBreaks(host)
    ensures AllPlain(RequestLines(host, n))
  {
    RequestLinesPlain(host);
    assert Plain(ConnectionLine(true));
    PlainJoin("Content-Length: ", Decimal(n));
  }

  // ------------------------------------------------------------ reading a response's headers

  /** The headers of a built response, in order. */
  function ResponseHeaders(r: HttpResponse, date: Bytes): (headers: seq<(Bytes, Bytes)>)
  {
    [("Content-Length", Decimal(|r.body|)), ("Date", date)] + r.headers
    + [("Connection", if r.keepAlive then "keep-alive" else "close")]
  }

  lemma {:induction false} HeaderRead(header: (Bytes, Bytes))
    requires Token(header.0)
    ensures ParseHeaderLine(HeaderLine(header)) == Ok((header.0, Trim(header.1)))
  {
    var spaced := " " + header.1;
    NamedHeader(header.0, header.1);
    assert SpaceAtStart(spaced) == 1 && spaced[1..] == header.1;
  }

  lemma {:induction false} ResponseLinesAre(r: HttpResponse, date: Bytes)
    ensures ResponseLines(r, date) == [StatusLine(r)] + HeaderLines(ResponseHeaders(r, date))
  {
    var length, day := ("Content-Length", Decimal(|r.body|)), ("Date", date);
    var end := ("Connection", if r.keepAlive then "keep-alive" else "close");
    HeaderLinesAppend([length, day] + r.headers, [end]);
    HeaderLinesAppend([length, day], r.headers);
    FixedHeaders(r, date, length, day, end);
    assert HeaderLines([length, day]) == [HeaderLine(length), HeaderLine(day)];
    assert HeaderLines([end]) == [HeaderLine(end)];
    Regroup(StatusLine(r), HeaderLine(length), HeaderLine(day), HeaderLines(r.headers), [HeaderLine(end)]);
  }

  lemma {:induction false} HeaderLinesAppend(a: seq<(Bytes, Bytes)>, b: seq<(Bytes, Bytes)>)
    ensures HeaderLines(a + b) == HeaderLines(a) + HeaderLines(b)
  {
  }

  lemma {:induction false} FixedHeaders(r: HttpResponse, date: Bytes, length: (Bytes, Bytes), day: (Bytes, Bytes),
      end: (Bytes, Bytes))
    requires length == ("Content-Length", Decimal(|r.body|)) && day == ("Date", date)
    requires end == ("Connection", if r.keepAlive then "keep-alive" else "close")
    ensures HeaderLine(length) == LengthLine(|r.body|) && HeaderLine(day) == "Date: " + date
    ensures HeaderLine(end) == ConnectionLine(r.keepAlive)
  {
    assert "Content-Length" + ": " == "Content-Length: " && "Date" + ": " == "Date: ";
  }

  lemma {:induction false} Regroup<T>(a: T, b: T, c: T, d: seq<T>, e: seq<T>)
    ensures [a] + (([b, c] + d) + e) == [a] + [b] + ([c] + d + e)
  {
  }

  /** Main theorem. The header lines of a built response, read one by one, are its headers in order, with the length of
    * the body, the date and whether the connection stays open, whatever the custom headers are.
    */
  lemma {:induction false} ResponseHeadersRead(r: HttpResponse, date: Bytes) returns (e: nat)
    requires HeadersClean(r, date) && forall i :: 0 <= i < |r.headers| ==> Token(r.headers[i].0)
    ensures var m := Message(ResponseLines(r, date), r.body); var headers := ResponseHeaders(r, date);
            && HeadersEnd(m, 0) == Some(e) && e <= |m| && |Lines(m[..e])| == 1 + |headers|
            && forall i :: 0 <= i < |headers| ==>
                 ParseHeaderLine(Lines(m[..e])[i + 1]) == Ok((headers[i].0, Trim(headers[i].1)))
  {
    var lines, headers := ResponseLines(r, date), ResponseHeaders(r, date);
    e := HeadOf(lines, r, date);
    ResponseLinesAre(r, date);
    forall i | 0 <= i < |headers|
      ensures ParseHeaderLine(lines[i + 1]) == Ok((headers[i].0, Trim(headers[i].1)))
    {
      HeaderNames(r, date, i);
      HeaderRead(headers[i]);
      assert lines[i + 1] == HeaderLines(headers)[i];
    }
  }

  lemma {:induction false} HeadOf(lines: seq<Bytes>, r: HttpResponse, date: Bytes) returns (e: nat)
    requires lines == ResponseLines(r, date) && HeadersClean(r, date)
    ensures var m := Message(lines, r.body); HeadersEnd(m, 0) == Some(e) && e <= |m| && Lines(m[..e]) == lines
  {
    ResponsePlain(r, date);
    EndAfterHead(lines, r.body);
    LinesOfHead(lines);
    e := |Head(lines)| - 2;
    assert Message(lines, r.body)[..e] == Head(lines)[..e];
  }

  lemma {:induction false} ResponsePlain(r: HttpResponse, date: Bytes)
    requires HeadersClean(r, date)
    ensures AllPlain(ResponseLines(r, date))
  {
    StatusLinePlain(r);
    LaterLinesPlain(r, date);
    PlainJoin("Content-Length: ", Decimal(|r.body|));
  }

  lemma {:induction false} HeaderNames(r: HttpResponse, date: Bytes, i: nat)
    requires forall k :: 0 <= k < |r.headers| ==> Token(r.headers[k].0)
    requires i < |ResponseHeaders(r, date)|
    ensures Token(ResponseHeaders(r, date)[i].0)
  {
    assert Token("Content-Length") && Token("Date") && Token("Connection");
    if 2 <= i < 2 + |r.headers| { assert ResponseHeaders(r, date)[i] == r.headers[i - 2]; }
  }
}
