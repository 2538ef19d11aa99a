/** The server decides that a request has arrived with one reader of `Content-Length` and parses it with another
  * (server/src/http.rs). What each of them reads from the header lines, when a complete request parses to a body of
  * the announced length, and when it does not.
  */
module HttpAgree {
  import opened Common
  import opened Http
  import opened HttpMessages
  import opened HttpParse
  import opened Text

  // ------------------------------------------------------------ the completeness check, line by line

  /** What the completeness check reads from one line: digits after the header name and any blanks, none being 0. */
  function ScannedLength(line: Bytes): (r: Option<nat>)
  {
    if LengthHeaderAt(line, 0) then Some(ReadDigits(line, SkipSpaces(line, 15), 0)) else None
  }

  /** The first line it reads a length from. */
  function FirstScanned(lines: seq<Bytes>): (r: Option<nat>)
  {
    if lines == [] then None
    else if ScannedLength(lines[0]).Some? then ScannedLength(lines[0]) else FirstScanned(lines[1..])
  }

  /** The scan over the bytes is a scan over the lines, whatever the line ends are. */
  lemma {:induction false} ScanIsByLine(s: Bytes)
    ensures ContentLength(s) == FirstScanned(Lines(s))
    decreases |s|
  {
    if s != "" {
      var k := IndexOf(s, '\n');
      if k == |s| {
        OnlyOneStart(s);
        assert FirstScanned([s]) == ScannedLength(s);
      } else {
        LinesUnfold(s, k);
        var line, rest := StripCr(s[..k]), s[k + 1..];
        ScanIsByLine(rest);
        FirstLineScanned(s, k, line);
        if !LengthHeaderAt(s, 0) {
          LaterLineScanned(s, k, rest);
        }
        FirstScannedUnfold(line, Lines(rest));
      }
    }
  }

  lemma {:induction false} FirstScannedUnfold(line: Bytes, lines: seq<Bytes>)
    ensures FirstScanned([line] + lines)
         == if ScannedLength(line).Some? then ScannedLength(line) else FirstScanned(lines)
  {
    assert ([line] + lines)[1..] == lines;
  }

  lemma {:induction false} OnlyOneStart(s: Bytes)
    requires forall i :: 0 <= i < |s| ==> s[i] != '\n'
    ensures ContentLength(s) == ScannedLength(s)
  {
    assert forall i: nat :: i > 0 ==> !LengthHeaderAt(s, i);
  }

  /** A length header on the first line, and its value, do not depend on what follows the line. */
  lemma {:induction false} FirstLineScanned(s: Bytes, k: nat, line: Bytes)
    requires k < |s| && s[k] == '\n' && line == StripCr(s[..k])
    ensures LengthHeaderAt(s, 0) <==> LengthHeaderAt(line, 0)
    ensures LengthHeaderAt(s, 0) ==> ContentLength(s) == ScannedLength(line)
  {
    var n := |line|;
    assert line == s[..n] && (s[n] == '\n' || s[n] == '\r');
    if LengthHeaderAt(s, 0) {
      NameHasNoBreak(s, n);
      assert forall i :: 0 <= i < 15 ==> line[i] == s[0 + i];
      assert forall i :: 0 <= i < 15 ==> Lower(line[0 + i]) == LENGTH_HEADER[i];
      SameSpaces(s, line, 15);
      SameDigits(s, line, SkipSpaces(line, 15), 0);
    }
    if LengthHeaderAt(line, 0) {
      forall i | 0 <= i < 15 ensures Lower(s[0 + i]) == LENGTH_HEADER[i] {
        assert s[0 + i] == line[0 + i];
      }
    }
  }

  lemma {:induction false} NameHasNoBreak(s: Bytes, n: nat)
    requires LengthHeaderAt(s, 0) && n < |s| && (s[n] == '\n' || s[n] == '\r')
    ensures n >= 15
  {
    assert forall i :: 0 <= i < 15 ==> LENGTH_HEADER[i] != '\n' && LENGTH_HEADER[i] != '\r';
    forall i | 0 <= i < 15 ensures s[i] != '\n' && s[i] != '\r' {
      assert Lower(s[0 + i]) == LENGTH_HEADER[i];
    }
  }

  lemma {:induction false} SameSpaces(s: Bytes, line: Bytes, j: nat)
    requires line <= s && |line| < |s| && j <= |line| && s[|line|] != ' '
    ensures SkipSpaces(s, j) == SkipSpaces(line, j)
    decreases |line| - j
  {
    if j < |line| && line[j] == ' ' {
      SameSpaces(s, line, j + 1);
    }
  }

  lemma {:induction false} SameDigits(s: Bytes, line: Bytes, j: nat, val: nat)
    requires line <= s && |line| < |s| && j <= |line| && !IsDigit(s[|line|])
    ensures ReadDigits(s, j, val) == ReadDigits(line, j, val)
    decreases |line| - j
  {
    if j < |line| && IsDigit(line[j]) {
      SameDigits(s, line, j + 1, (val * 10 + DigitValue(line[j])) % U64);
    }
  }

  /** Without one there, the scan goes on as if the text began after the line. */
  lemma {:induction false} LaterLineScanned(s: Bytes, k: nat, rest: Bytes)
    requires k < |s| && s[k] == '\n' && rest == s[k + 1..] && !LengthHeaderAt(s, 0)
    requires forall i :: 0 <= i < k ==> s[i] != '\n'
    ensures ContentLength(s) == ContentLength(rest)
  {
    var p := k + 1;
    assert forall i: nat :: 0 < i < p ==> !LengthHeaderAt(s, i);
    forall i: nat | p <= i ensures LengthHeaderAt(s, i) <==> LengthHeaderAt(rest, i - p) {
      ShiftedHeader(s, p, rest, i);
    }
    SameFirst(s, p, rest);
    SameValue(s, p, rest, FirstLengthHeader(rest, 0));
  }

  lemma {:induction false} SameValue(s: Bytes, p: nat, rest: Bytes, r: Option<nat>)
    requires p <= |s| && rest == s[p..] && r == FirstLengthHeader(rest, 0)
    requires FirstLengthHeader(s, 0) == match r case None => None case Some(i) => Some(i + p)
    ensures ContentLength(s) == ContentLength(rest)
  {
    if r.Some? {
      var j := r.value + 15;
      ShiftedSpaces(s, p, rest, j);
      ShiftedDigits(s, p, rest, SkipSpaces(rest, j), 0);
    }
  }

  lemma {:induction false} ShiftedHeader(s: Bytes, p: nat, rest: Bytes, i: nat)
    requires 0 < p <= |s| && s[p - 1] == '\n' && rest == s[p..] && p <= i
    ensures LengthHeaderAt(s, i) <==> LengthHeaderAt(rest, i - p)
  {
    var j := i - p;
    if LengthHeaderAt(s, i) {
      forall k | 0 <= k < 15 ensures Lower(rest[j + k]) == LENGTH_HEADER[k] {
        assert rest[j + k] == s[i + k];
      }
    }
    if LengthHeaderAt(rest, j) {
      forall k | 0 <= k < 15 ensures Lower(s[i + k]) == LENGTH_HEADER[k] {
        assert s[i + k] == rest[j + k];
      }
    }
  }

  lemma {:induction false} SameFirst(s: Bytes, p: nat, rest: Bytes)
    requires p <= |s| && forall i: nat :: i < p ==> !LengthHeaderAt(s, i)
    requires forall i: nat :: p <= i ==> (LengthHeaderAt(s, i) <==> LengthHeaderAt(rest, i - p))
    ensures FirstLengthHeader(s, 0)
         == match FirstLengthHeader(rest, 0) case None => None case Some(i) => Some(i + p)
  {
    var a, b := FirstLengthHeader(s, 0), FirstLengthHeader(rest, 0);
    if b.Some? {
      assert LengthHeaderAt(s, b.value + p);
    }
    if a.Some? {
      assert LengthHeaderAt(rest, a.value - p);
    }
  }

  lemma {:induction false} ShiftedSpaces(s: Bytes, p: nat, rest: Bytes, j: nat)
    requires p <= |s| && rest == s[p..] && j <= |rest|
    ensures SkipSpaces(s, j + p) == SkipSpaces(rest, j) + p
    decreases |rest| - j
  {
    if j < |rest| && rest[j] == ' ' {
      ShiftedSpaces(s, p, rest, j + 1);
    }
  }

  lemma {:induction false} ShiftedDigits(s: Bytes, p: nat, rest: Bytes, j: nat, val: nat)
    requires p <= |s| && rest == s[p..] && j <= |rest|
    ensures ReadDigits(s, j + p, val) == ReadDigits(rest, j, val)
    decreases |rest| - j
  {
    if j < |rest| && IsDigit(rest[j]) {
      ShiftedDigits(s, p, rest, j + 1, (val * 10 + DigitValue(rest[j])) % U64);
    }
  }

  // ------------------------------------------------------------ the parser, line by line

  /** The name before the first colon is that of the length header, in any case, white space around it dropped. */
  predicate IsLengthHeader(line: Bytes)
  {
    var pos := IndexOf(line, ':');
    pos < |line| && EqIgnoreCase(Trim(line[..pos]), "content-length")
  }

  /** The number after the colon, white space around it dropped, if it is one the parser takes. */
  function ParsedLength(line: Bytes): (r: Option<nat>)
    requires IsLengthHeader(line)
  {
    ParseUsize(Trim(line[IndexOf(line, ':') + 1..]))
  }

  /** A line the parser takes: empty, or with a colon, and with a number if it is a length header. */
  predicate Taken(line: Bytes)
  {
    line == "" || (IndexOf(line, ':') < |line| && (IsLengthHeader(line) ==> ParsedLength(line).Some?))
  }

  predicate AllTaken(lines: seq<Bytes>) { forall i :: 0 <= i < |lines| ==> Taken(lines[i]) }

  /** The number of the last length header; 0 if there is none. */
  function LastLength(lines: seq<Bytes>): (n: nat)
    requires AllTaken(lines)
  {
    if lines == [] then 0
    else
      var line := lines[|lines| - 1];
      if IsLengthHeader(line) then ParsedLength(line).value else LastLength(lines[..|lines| - 1])
  }

  lemma {:induction false} OneHeader(f: Fields, line: Bytes)
    ensures OnHeader(f, line).Ok? <==> Taken(line)
    ensures Taken(line) ==>
              OnHeader(f, line).value.contentLength
              == if IsLengthHeader(line) then ParsedLength(line).value else f.contentLength
  {
  }

  /** The parser takes header lines exactly when it takes each of them, and keeps the last length. */
  lemma {:induction false} ParserKeepsLast(lines: seq<Bytes>)
    ensures OnHeaders(NO_FIELDS, lines).Ok? <==> AllTaken(lines)
    ensures AllTaken(lines) ==> OnHeaders(NO_FIELDS, lines).value.contentLength == LastLength(lines)
  {
    if lines != [] {
      var n := |lines| - 1;
      ParserKeepsLast(lines[..n]);
      HeadersSnoc(NO_FIELDS, lines, n);
      TakenSnoc(lines, n);
      if AllTaken(lines[..n]) {
        OneHeader(OnHeaders(NO_FIELDS, lines[..n]).value, lines[n]);
      }
    }
  }

  lemma {:induction false} TakenSnoc(lines: seq<Bytes>, n: nat)
    requires |lines| == n + 1
    ensures AllTaken(lines) <==> AllTaken(lines[..n]) && Taken(lines[n])
  {
    if AllTaken(lines[..n]) && Taken(lines[n]) {
      forall i | 0 <= i < |lines| ensures Taken(lines[i]) {
        assert i < n ==> lines[i] == lines[..n][i];
      }
    }
  }

  lemma {:induction false} HeadersSnoc(f: Fields, lines: seq<Bytes>, n: nat)
    requires |lines| == n + 1
    ensures OnHeaders(f, lines)
         == match OnHeaders(f, lines[..n]) case Err(e) => Err(e) case Ok(g) => OnHeader(g, lines[n])
    decreases n
  {
    if n == 0 {
      assert lines[1..] == [] && lines[..0] == [];
    } else {
      var one := OnHeader(f, lines[0]);
      assert lines[1..][..n - 1] == lines[..n][1..] && lines[1..][n - 1] == lines[n];
      if one.Ok? {
        HeadersSnoc(one.value, lines[1..], n - 1);
      }
    }
  }

  // ------------------------------------------------------------ what else the parser keeps

  /** A header line at its first colon, white space around both parts dropped. */
  function Halves(line: Bytes): (header: (Bytes, Bytes))
    requires IndexOf(line, ':') < |line|
  {
    var pos := IndexOf(line, ':');
    (Trim(line[..pos]), Trim(line[pos + 1..]))
  }

  /** The headers of all lines that are not empty, in order. */
  function AllHalves(lines: seq<Bytes>): (headers: seq<(Bytes, Bytes)>)
    requires AllTaken(lines)
  {
    if lines == [] then []
    else
      var n := |lines| - 1;
      AllHalves(lines[..n]) + if lines[n] == "" then [] else [Halves(lines[n])]
  }

  /** Whether the last Connection header says close. Without one the connection stays open. */
  predicate AsksToClose(headers: seq<(Bytes, Bytes)>)
  {
    headers != [] &&
    var n := |headers| - 1;
    if EqIgnoreCase(headers[n].0, "connection") then EqIgnoreCase(headers[n].1, "close") else AsksToClose(headers[..n])
  }

  lemma {:induction false} ParserKeepsAll(lines: seq<Bytes>)
    requires AllTaken(lines)
    ensures OnHeaders(NO_FIELDS, lines).Ok?
    ensures var f := OnHeaders(NO_FIELDS, lines).value;
            f.headers == AllHalves(lines) && f.close == AsksToClose(AllHalves(lines))
  {
    ParserKeepsLast(lines);
    if lines != [] {
      var n := |lines| - 1;
      TakenSnoc(lines, n);
      HeadersSnoc(NO_FIELDS, lines, n);
      ParserKeepsAll(lines[..n]);
      OneMoreKept(OnHeaders(NO_FIELDS, lines[..n]).value, AllHalves(lines[..n]), lines[n]);
    }
  }

  lemma {:induction false} OneMoreKept(f: Fields, headers: seq<(Bytes, Bytes)>, line: Bytes)
    requires Taken(line) && f.headers == headers && f.close == AsksToClose(headers)
    ensures OnHeader(f, line).Ok?
    ensures var more := if line == "" then headers else headers + [Halves(line)];
            OnHeader(f, line).value.headers == more && OnHeader(f, line).value.close == AsksToClose(more)
  {
    OneHeader(f, line);
    if line != "" {
      var more := headers + [Halves(line)];
      assert more[..|more| - 1] == headers && more[|more| - 1] == Halves(line);
      LengthIsNotConnection(Halves(line).0);
    }
  }

  lemma {:induction false} LengthIsNotConnection(name: Bytes)
    ensures !(EqIgnoreCase(name, "content-length") && EqIgnoreCase(name, "connection"))
  {
  }

  /** Main theorem. Every request that parses does so to the first two words of its first line, to all its header lines
    * in order, and to a connection that closes exactly when the last Connection header says so.
    */
  lemma {:induction false} ParsedKeepsAll(buf: Bytes)
    requires Parsed(buf).Ok?
    ensures HeadersEnd(buf, 0).Some?
    ensures var request, lines := Parsed(buf).value, Lines(buf[..HeadersEnd(buf, 0).value]);
            && lines != [] && |Words(lines[0])| >= 3 && AllTaken(lines[1..])
            && request.verb == Words(lines[0])[0] && request.path == Words(lines[0])[1]
            && request.headers == AllHalves(lines[1..]) && request.connectionClose == AsksToClose(request.headers)
  {
    var lines := Lines(buf[..HeadersEnd(buf, 0).value]);
    ParserKeepsLast(lines[1..]);
    ParserKeepsAll(lines[1..]);
  }

  // ------------------------------------------------------------ all requests

  /** Header text the parser takes: a request line of three words, and header lines it takes one by one. */
  predicate WellFormed(head: Bytes)
  {
    var lines := Lines(head);
    Utf8(head) && lines != [] && |Words(lines[0])| >= 3 && AllTaken(lines[1..])
  }

  /** The body length the completeness check waits for: the first it reads, 0 if it reads none. */
  function Awaited(lines: seq<Bytes>): (n: nat)
  {
    match FirstScanned(lines) case None => 0 case Some(n) => n
  }

  function TooFew(n: nat, available: nat): (e: HttpError)
  {
    if available > 0 then ShortBody(n, available) else MissingBody
  }

  /** Main theorem. For every request, as soon as its blank line is there: it is complete exactly when as many bytes
    * follow as its first length line says to the scanner, and it parses exactly when its header text is well-formed
    * and as many bytes follow as its last length header says to the parser, which are the body.
    */
  lemma {:induction false} FirstAndLast(buf: Bytes, e: nat)
    requires HeadersEnd(buf, 0) == Some(e)
    ensures IsComplete(buf) <==> Awaited(Lines(buf[..e])) <= |buf| - (e + 4)
    ensures Parsed(buf).Ok? ==> WellFormed(buf[..e])
    ensures WellFormed(buf[..e]) ==> Cuts(buf, e + 4, LastLength(Lines(buf[..e])[1..]))
  {
    ScanIsByLine(buf[..e]);
    ParserReads(buf, e, Lines(buf[..e]));
  }

  /** The parser takes `n` bytes from `start` on for the body, or says how many there are. */
  ghost predicate Cuts(buf: Bytes, start: nat, n: nat)
    requires start <= |buf|
  {
    if start + n <= |buf| then Parsed(buf).Ok? && Parsed(buf).value.body == buf[start..start + n]
    else Parsed(buf) == Err(TooFew(n, |buf| - start))
  }

  lemma {:induction false} ParserReads(buf: Bytes, e: nat, lines: seq<Bytes>)
    requires HeadersEnd(buf, 0) == Some(e) && lines == Lines(buf[..e])
    ensures Parsed(buf).Ok? ==> WellFormed(buf[..e])
    ensures WellFormed(buf[..e]) ==> Cuts(buf, e + 4, LastLength(lines[1..]))
  {
    if Utf8(buf[..e]) && lines != [] {
      ParsedFrom(buf, e);
      ParserKeepsLast(lines[1..]);
      if AllTaken(lines[1..]) {
        BodyTaken(buf, e + 4, lines, LastLength(lines[1..]));
      }
    }
  }

  lemma {:induction false} BodyTaken(buf: Bytes, start: nat, lines: seq<Bytes>, n: nat)
    requires start <= |buf| && lines != [] && Parsed(buf) == ParseLines(lines, buf, start)
    requires OnHeaders(NO_FIELDS, lines[1..]).Ok? && OnHeaders(NO_FIELDS, lines[1..]).value.contentLength == n
    ensures |Words(lines[0])| >= 3 ==> Cuts(buf, start, n)
  {
  }

  /** Main theorem. A complete request parses to a body of the announced length exactly when its header text is
    * well-formed and the first length line the scanner sees says what the last length header says.
    */
  lemma {:induction false} CompleteParsesExactly(buf: Bytes, e: nat)
    requires HeadersEnd(buf, 0) == Some(e) && IsComplete(buf)
    ensures (Parsed(buf).Ok? && |Parsed(buf).value.body| == Awaited(Lines(buf[..e])))
       <==> (WellFormed(buf[..e]) && Awaited(Lines(buf[..e])) == LastLength(Lines(buf[..e])[1..]))
  {
    FirstAndLast(buf, e);
  }

  // ------------------------------------------------------------ one length line

  /** A length header the scanner reads in full: the name at the start of the line with the colon right after it,
    * then only blanks before the first digit.
    */
  ghost predicate Spelled(line: Bytes)
  {
    LengthHeaderAt(line, 0) && exists j :: 15 <= j < |line| && DigitAfterBlanks(line, j)
  }

  predicate DigitAfterBlanks(line: Bytes, j: nat)
    requires 15 <= j < |line|
  {
    IsDigit(line[j]) && forall i :: 15 <= i < j ==> line[i] == ' '
  }

  /** What the scanner makes of a line the parser reads `n` from: `n` if it is spelled like that, otherwise 0. */
  lemma {:induction false} LineReadExactly(line: Bytes, n: nat)
    requires IsLengthHeader(line) && ParsedLength(line) == Some(n)
    ensures Spelled(line) ==> ScannedLength(line) == Some(n)
    ensures !Spelled(line) ==> ScannedLength(line) == None || ScannedLength(line) == Some(0)
  {
    if LengthHeaderAt(line, 0) {
      var j := SkipSpaces(line, 15);
      BlanksSkipped(line, 15);
      ColonPlace(line, IndexOf(line, ':'));
      if j < |line| && IsDigit(line[j]) {
        DigitsRead(line, j, n);
        assert DigitAfterBlanks(line, j);
      } else {
        NoDigitAfterBlanks(line, j);
      }
    }
  }

  lemma {:induction false} NoDigitAfterBlanks(line: Bytes, j: nat)
    requires 15 <= j <= |line| && (forall i :: 15 <= i < j ==> line[i] == ' ')
    requires j < |line| ==> line[j] != ' ' && !IsDigit(line[j])
    ensures !Spelled(line)
  {
    forall d | 15 <= d < |line| ensures !DigitAfterBlanks(line, d) {
      if d < j {
        assert line[d] == ' ';
      } else {
        assert d > j ==> line[j] != ' ';
      }
    }
  }

  lemma {:induction false} BlanksSkipped(line: Bytes, from: nat)
    requires from <= |line|
    ensures var j := SkipSpaces(line, from);
            (forall i :: from <= i < j ==> line[i] == ' ') && (j < |line| ==> line[j] != ' ')
    decreases |line| - from
  {
    if from < |line| && line[from] == ' ' {
      BlanksSkipped(line, from + 1);
    }
  }

  lemma {:induction false} ColonPlace(line: Bytes, pos: nat)
    requires LengthHeaderAt(line, 0) && pos == IndexOf(line, ':')
    ensures pos == 14
  {
    assert forall k :: 0 <= k < 14 ==> LENGTH_HEADER[k] != ':';
    forall k | 0 <= k < 14 ensures line[k] != ':' {
      assert Lower(line[0 + k]) == LENGTH_HEADER[k];
    }
    assert Lower(line[0 + 14]) == LENGTH_HEADER[14];
  }

  lemma {:induction false} DigitsRead(line: Bytes, j: nat, n: nat)
    requires 15 <= j < |line| && DigitAfterBlanks(line, j) && ParseUsize(Trim(line[15..])) == Some(n)
    ensures ReadDigits(line, j, 0) == n
  {
    var t := ValueText(line, j);
    NumberStarts(t, n);
    RunRead(line, j, t);
  }

  /** The trimmed value starts at the first digit and ends before a character that is none. */
  lemma {:induction false} ValueText(line: Bytes, j: nat) returns (t: Bytes)
    requires 15 <= j < |line| && DigitAfterBlanks(line, j)
    ensures t == Trim(line[15..]) && j + |t| <= |line| && line[j..j + |t|] == t
    ensures (t != "" ==> IsDigit(t[0])) && (j + |t| < |line| ==> !IsDigit(line[j + |t|]))
  {
    var value, rest := line[15..], line[j..];
    assert value[j - 15..] == rest;
    BlanksTrimmed(value, j - 15);
    EndTrimmed(rest);
    t := TrimEnd(rest);
    assert line[j..j + |t|] == rest[..|t|] == t;
  }

  lemma {:induction false} NumberStarts(t: Bytes, n: nat)
    requires ParseUsize(t) == Some(n) && (t != "" ==> IsDigit(t[0]))
    ensures t != "" && AllDigits(t) && DigitsValue(t) == n && n < U64
  {
    assert t != "";
    assert t[0] != '+';
  }

  lemma {:induction false} BlanksTrimmed(s: Bytes, k: nat)
    requires k < |s| && IsDigit(s[k]) && forall i :: 0 <= i < k ==> s[i] == ' '
    ensures TrimStart(s) == s[k..]
  {
    if k == 0 {
      assert s[0..] == s;
    } else {
      assert SpaceAtStart(s) == 1;
      assert s[1..][k - 1..] == s[k..];
      BlanksTrimmed(s[1..], k - 1);
    }
  }

  /** What is trimmed off the end does not start with a digit. */
  lemma {:induction false} EndTrimmed(s: Bytes)
    ensures TrimEnd(s) <= s && (|TrimEnd(s)| < |s| ==> !IsDigit(s[|TrimEnd(s)|]))
    decreases |s|
  {
    var w := SpaceAtEnd(s);
    if w > 0 {
      EndTrimmed(s[..|s| - w]);
      SpaceIsNoDigit(s, w);
    }
  }

  lemma {:induction false} SpaceIsNoDigit(s: Bytes, w: nat)
    requires w == SpaceAtEnd(s) && w > 0
    ensures !IsDigit(s[|s| - w])
  {
  }

  lemma {:induction false} RunRead(h: Bytes, j: nat, t: Bytes)
    requires j + |t| <= |h| && h[j..j + |t|] == t && AllDigits(t)
    requires DigitsValue(t) < U64 && (j + |t| < |h| ==> !IsDigit(h[j + |t|]))
    ensures ReadDigits(h, j, 0) == DigitsValue(t)
  {
    RunAccumulates(h, j, t);
  }

  lemma {:induction false} RunAccumulates(h: Bytes, j: nat, t: Bytes)
    requires j + |t| <= |h| && h[j..j + |t|] == t && AllDigits(t)
    requires DigitsValue(t) < U64
    ensures ReadDigits(h, j, 0) == ReadDigits(h, j + |t|, DigitsValue(t))
  {
    if t != "" {
      var n := |t| - 1;
      var last := j + n;
      var run := h[j..j + |t|];
      assert h[j..last] == run[..n] == t[..n];
      assert h[last] == run[n] == t[n];
      RunAccumulates(h, j, t[..n]);
      assert DigitChar(DigitValue(t[n])) == t[n];
      ReadOneDigit(h, last, DigitsValue(t[..n]), DigitValue(t[n]));
    }
  }

  // ------------------------------------------------------------ one length header in a request

  /** Line `j` is the only length header of a request. */
  predicate OnlyLength(lines: seq<Bytes>, j: nat)
  {
    && 0 < j < |lines| && IsLengthHeader(lines[j]) && !LengthHeaderAt(lines[0], 0)
    && forall i :: 0 < i < |lines| && i != j ==> !IsLengthHeader(lines[i])
  }

  /** Main theorem. In a complete, well-formed request with one length header, of value `n`, the body has the
    * announced length exactly when the header is spelled as the scanner expects or `n` is 0.
    */
  lemma {:induction false} OneLengthExactly(buf: Bytes, e: nat, j: nat, n: nat)
    requires HeadersEnd(buf, 0) == Some(e) && WellFormed(buf[..e]) && IsComplete(buf)
    requires OnlyLength(Lines(buf[..e]), j) && ParsedLength(Lines(buf[..e])[j]) == Some(n)
    ensures (Parsed(buf).Ok? && |Parsed(buf).value.body| == Awaited(Lines(buf[..e])))
       <==> (Spelled(Lines(buf[..e])[j]) || n == 0)
  {
    OneLength(Lines(buf[..e]), j, n);
    CompleteParsesExactly(buf, e);
  }

  /** The parser reads `n`; the scanner reads `n` or waits for nothing. */
  lemma {:induction false} OneLength(lines: seq<Bytes>, j: nat, n: nat)
    requires OnlyLength(lines, j) && AllTaken(lines[1..]) && ParsedLength(lines[j]) == Some(n)
    ensures LastLength(lines[1..]) == n && Awaited(lines) == if Spelled(lines[j]) then n else 0
  {
    LastIsOnly(lines, j);
    FirstIsOnly(lines, j);
    LineReadExactly(lines[j], n);
  }

  lemma {:induction false} LastIsOnly(lines: seq<Bytes>, j: nat)
    requires OnlyLength(lines, j) && AllTaken(lines[1..]) && ParsedLength(lines[j]).Some?
    ensures LastLength(lines[1..]) == ParsedLength(lines[j]).value
  {
    OnlyAmongHeaders(lines, lines[1..], j);
    OnlyIsLast(lines[1..], j - 1);
  }

  lemma {:induction false} OnlyAmongHeaders(lines: seq<Bytes>, headers: seq<Bytes>, j: nat)
    requires OnlyLength(lines, j) && headers == lines[1..]
    ensures headers[j - 1] == lines[j]
    ensures forall i :: 0 <= i < |headers| && i != j - 1 ==> !IsLengthHeader(headers[i])
  {
    forall i | 0 <= i < |headers| && i != j - 1 ensures !IsLengthHeader(headers[i]) {
      assert headers[i] == lines[i + 1];
    }
  }

  lemma {:induction false} FirstIsOnly(lines: seq<Bytes>, j: nat)
    requires OnlyLength(lines, j)
    ensures FirstScanned(lines) == ScannedLength(lines[j])
  {
    forall i | 0 <= i < |lines| && i != j ensures ScannedLength(lines[i]) == None {
      if i > 0 {
        OtherNotScanned(lines[i]);
      }
    }
    OnlyIsFirst(lines, j);
  }

  lemma {:induction false} OnlyIsLast(lines: seq<Bytes>, j: nat)
    requires AllTaken(lines) && j < |lines| && IsLengthHeader(lines[j])
    requires forall i :: 0 <= i < |lines| && i != j ==> !IsLengthHeader(lines[i])
    ensures LastLength(lines) == ParsedLength(lines[j]).value
  {
    if j < |lines| - 1 {
      OnlyIsLast(lines[..|lines| - 1], j);
    }
  }

  lemma {:induction false} OnlyIsFirst(lines: seq<Bytes>, j: nat)
    requires j < |lines| && forall i :: 0 <= i < |lines| && i != j ==> ScannedLength(lines[i]) == None
    ensures FirstScanned(lines) == ScannedLength(lines[j])
  {
    if j > 0 {
      OnlyIsFirst(lines[1..], j - 1);
    } else if ScannedLength(lines[0]) == None {
      NoneScanned(lines);
    }
  }

  lemma {:induction false} NoneScanned(lines: seq<Bytes>)
    requires forall i :: 0 <= i < |lines| ==> ScannedLength(lines[i]) == None
    ensures FirstScanned(lines) == None
  {
    if lines != [] {
      NoneScanned(lines[1..]);
    }
  }

  /** A line that is no length header to the parser is none to the scanner. */
  lemma {:induction false} OtherNotScanned(line: Bytes)
    requires !IsLengthHeader(line)
    ensures ScannedLength(line) == None
  {
    if LengthHeaderAt(line, 0) {
      ColonPlace(line, IndexOf(line, ':'));
      NameMatched(line, line[..14]);
      TrimIsIdentity(line[..14]);
    }
  }

  lemma {:induction false} NameMatched(line: Bytes, name: Bytes)
    requires LengthHeaderAt(line, 0) && name == line[..14]
    ensures EqIgnoreCase(name, "content-length") && Trimmed(name)
  {
    forall i | 0 <= i < 14 ensures Lower(name[i]) == LENGTH_HEADER[i] {
      assert name[i] == line[0 + i];
    }
  }

  // ------------------------------------------------------------ requests on which the two disagree

  /** A request line: three words, and no length header itself. */
  predicate Opening(first: Bytes)
  {
    Plain(first) && Utf8(first) && |Words(first)| >= 3 && !LengthHeaderAt(first, 0)
  }

  /** A message the completeness check takes for whole once its body has `a` bytes, and the parser cuts at `b`. */
  ghost predicate ReadAs(m: Bytes, body: Bytes, a: nat, b: nat)
  {
    && (IsComplete(m) <==> a <= |body|)
    && (b <= |body| ==> Parsed(m).Ok? && Parsed(m).value.body == body[..b])
    && (b > |body| ==> Parsed(m) == Err(TooFew(b, |body|)))
  }

  /** What becomes of a message put together from lines the parser takes. */
  lemma {:induction false} MessageRead(lines: seq<Bytes>, body: Bytes)
    requires AllPlain(lines) && AllUtf8(lines) && lines != [] && |Words(lines[0])| >= 3 && AllTaken(lines[1..])
    ensures ReadAs(Message(lines, body), body, Awaited(lines), LastLength(lines[1..]))
  {
    var m := Message(lines, body);
    var e := MessageParts(lines, body);
    FirstAndLast(m, e);
    ReadFrom(m, e + 4, body, Awaited(lines), LastLength(lines[1..]));
  }

  lemma {:induction false} ReadFrom(m: Bytes, start: nat, body: Bytes, a: nat, b: nat)
    requires start <= |m| && m[start..] == body && (IsComplete(m) <==> a <= |m| - start) && Cuts(m, start, b)
    ensures ReadAs(m, body, a, b)
  {
    BodyOf(m, start, body, b);
  }

  lemma {:induction false} BodyOf(m: Bytes, start: nat, body: Bytes, n: nat)
    requires start <= |m| && m[start..] == body
    ensures |m| == start + |body| && (n <= |body| ==> m[start..start + n] == body[..n])
  {
  }

  /** A length header of value `n` that the scanner does not read. */
  ghost predicate Misread(line: Bytes, n: nat)
  {
    Plain(line) && Utf8(line) && IsLengthHeader(line) && ParsedLength(line) == Some(n) && !Spelled(line)
  }

  /** With such a header a request is complete before its body has arrived, and is then refused. */
  lemma {:induction false} MisreadIsRefused(first: Bytes, line: Bytes, n: nat, body: Bytes)
    requires Opening(first) && Misread(line, n) && |body| < n
    ensures var m := Message([first, line], body); IsComplete(m) && Parsed(m) == Err(TooFew(n, |body|))
  {
    var lines := [first, line];
    assert lines[1..] == [line];
    OneLength(lines, 1, n);
    MessageRead(lines, body);
  }

  /** A plus sign, a tab, or a blank before the colon: three headers that are misread, for every length. */
  lemma {:induction false} MisreadSpellings(n: nat)
    requires n < U64
    ensures Misread("Content-Length: +" + Decimal(n), n)
    ensures Misread("Content-Length:\t" + Decimal(n), n)
    ensures Misread("Content-Length : " + Decimal(n), n)
  {
    PlusMisread(n, "Content-Length: +");
    TabMisread(n, "Content-Length:\t");
    BlankMisread(n, "Content-Length : ");
  }

  lemma {:induction false} PlusMisread(n: nat, start: Bytes)
    requires n < U64 && start == "Content-Length: +"
    ensures Misread(start + Decimal(n), n)
  {
    var name, before := PlusParts(start);
    PlusValue(n, Decimal(n), before);
    MisreadFrom(start, name, before, n, "+" + Decimal(n), 16);
  }

  lemma {:induction false} MisreadFrom(start: Bytes, name: Bytes, before: Bytes, n: nat, value: Bytes, j: nat)
    requires Prefix(start, name, before) && EqIgnoreCase(name, "content-length") && Trimmed(name)
    requires Trim(before + Decimal(n)) == value && ParseUsize(value) == Some(n)
    requires 15 <= j < |start| && (forall i :: 15 <= i < j ==> start[i] == ' ') && start[j] != ' ' && !IsDigit(start[j])
    ensures Misread(start + Decimal(n), n)
  {
    TrimIsIdentity(name);
    LengthHeaderFrom(start, name, before, n, value);
    NoDigitAfterBlanks(start + Decimal(n), j);
  }

  lemma {:induction false} PlusValue(n: nat, d: Bytes, before: Bytes)
    requires n < U64 && d == Decimal(n) && before == " +"
    ensures Trim(before + d) == "+" + d && ParseUsize("+" + d) == Some(n)
  {
    var value := "+" + d;
    assert IsDigit(d[|d| - 1]) && before + d == " " + value;
    TrimDropsSpace(value);
    ParsePlus(n, d);
  }

  lemma {:induction false} PlusParts(start: Bytes) returns (name: Bytes, before: Bytes)
    requires start == "Content-Length: +"
    ensures Prefix(start, name, before) && before == " +" && EqIgnoreCase(name, "content-length") && Trimmed(name)
    ensures |start| == 17 && start[15] == ' ' && start[16] == '+'
  {
    name, before := "Content-Length", " +";
  }

  lemma {:induction false} ParsePlus(n: nat, d: Bytes)
    requires n < U64 && d == Decimal(n)
    ensures ParseUsize("+" + d) == Some(n)
  {
    assert ("+" + d)[1..] == d;
    DecimalValue(n);
  }

  lemma {:induction false} TabMisread(n: nat, start: Bytes)
    requires n < U64 && start == "Content-Length:\t"
    ensures Misread(start + Decimal(n), n)
  {
    var name, before := TabParts(start);
    DecimalAfter(before, '\t', n);
    MisreadFrom(start, name, before, n, Decimal(n), 15);
  }

  lemma {:induction false} TabParts(start: Bytes) returns (name: Bytes, before: Bytes)
    requires start == "Content-Length:\t"
    ensures Prefix(start, name, before) && before == ['\t'] && EqIgnoreCase(name, "content-length") && Trimmed(name)
    ensures |start| == 16 && start[15] == '\t'
  {
    name, before := "Content-Length", "\t";
  }

  lemma {:induction false} BlankMisread(n: nat, start: Bytes)
    requires n < U64 && start == "Content-Length : "
    ensures Misread(start + Decimal(n), n)
  {
    var name, bare, before := BlankParts(start);
    DecimalAfter(before, ' ', n);
    TrimDropsLast(bare, ' ');
    LengthHeaderFrom(start, name, before, n, Decimal(n));
    assert Lower((start + Decimal(n))[0 + 14]) != LENGTH_HEADER[14];
  }

  lemma {:induction false} BlankParts(start: Bytes) returns (name: Bytes, bare: Bytes, before: Bytes)
    requires start == "Content-Length : "
    ensures Prefix(start, name, before) && before == [' '] && name == bare + [' ']
    ensures EqIgnoreCase(bare, "content-length") && Trimmed(bare) && |start| == 17 && start[14] == ' '
  {
    bare, before := "Content-Length", " ";
    name := bare + [' '];
  }

  lemma {:induction false} DecimalAfter(before: Bytes, c: char, n: nat)
    requires n < U64 && before == [c] && IsSpace(c)
    ensures Trim(before + Decimal(n)) == Decimal(n) && ParseUsize(Decimal(n)) == Some(n)
  {
    var d := Decimal(n);
    assert IsDigit(d[0]) && IsDigit(d[|d| - 1]);
    TrimDropsFirst(c, d);
    ParseDecimal(n);
  }

  /** A header name, the colon, and characters before the value. */
  predicate Prefix(start: Bytes, name: Bytes, before: Bytes)
  {
    start == name + ":" + before && Ascii(start) && Plain(start) && forall i :: 0 <= i < |name| ==> name[i] != ':'
  }

  /** A line that starts with `start` and ends in the digits of `n` is a length header of value `n`. */
  lemma {:induction false} LengthHeaderFrom(start: Bytes, name: Bytes, before: Bytes, n: nat, value: Bytes)
    requires Prefix(start, name, before) && EqIgnoreCase(Trim(name), "content-length")
    requires Trim(before + Decimal(n)) == value && ParseUsize(value) == Some(n)
    ensures var line := start + Decimal(n);
            Plain(line) && Utf8(line) && IsLengthHeader(line) && ParsedLength(line) == Some(n)
  {
    LineIsText(start, n);
    Regroup(name, before, Decimal(n));
    HeaderOf(start + Decimal(n), name, before + Decimal(n), value, n);
  }

  lemma {:induction false} Regroup(name: Bytes, before: Bytes, d: Bytes)
    ensures (name + ":" + before) + d == name + ":" + (before + d)
  {
  }

  lemma {:induction false} HeaderOf(line: Bytes, name: Bytes, rest: Bytes, value: Bytes, n: nat)
    requires line == name + ":" + rest && forall i :: 0 <= i < |name| ==> name[i] != ':'
    requires EqIgnoreCase(Trim(name), "content-length") && Trim(rest) == value && ParseUsize(value) == Some(n)
    ensures IsLengthHeader(line) && ParsedLength(line) == Some(n)
  {
    ColonAfter(line, name, rest);
  }

  lemma {:induction false} LineIsText(start: Bytes, n: nat)
    requires Ascii(start) && Plain(start)
    ensures Plain(start + Decimal(n)) && Utf8(start + Decimal(n))
  {
    LengthLineAscii(n, start);
    AsciiIsUtf8(start + Decimal(n));
  }

  lemma {:induction false} ColonAfter(line: Bytes, name: Bytes, rest: Bytes)
    requires line == name + ":" + rest && forall i :: 0 <= i < |name| ==> name[i] != ':'
    ensures IndexOf(line, ':') == |name| && |name| < |line| && line[..|name|] == name && line[|name| + 1..] == rest
  {
    IndexOfIs(line, ':', |name|);
  }

  /** Two different lengths: a complete request that is refused, and one whose body is cut short. */
  lemma {:induction false} TwoLengthsDisagree(first: Bytes, low: nat, high: nat, body: Bytes)
    requires Opening(first) && low < high < U64
    ensures var m := Message([first, LengthLine(low), LengthLine(high)], body);
            low <= |body| < high ==> IsComplete(m) && Parsed(m).Err?
    ensures var m := Message([first, LengthLine(high), LengthLine(low)], body);
            high <= |body| ==> IsComplete(m) && Parsed(m).Ok? && Parsed(m).value.body == body[..low]
  {
    TwoLengths(first, low, LengthLine(low), high, LengthLine(high), body);
    TwoLengths(first, high, LengthLine(high), low, LengthLine(low), body);
  }

  lemma {:induction false} TwoLengths(first: Bytes, a: nat, x: Bytes, b: nat, y: Bytes, body: Bytes)
    requires Opening(first) && a < U64 && b < U64 && x == LengthLine(a) && y == LengthLine(b)
    ensures ReadAs(Message([first, x, y], body), body, a, b)
  {
    var lines := [first, x, y];
    TwoLengthLines(lines, first, a, x, b, y);
    MessageRead(lines, body);
  }

  lemma {:induction false} TwoLengthLines(lines: seq<Bytes>, first: Bytes, a: nat, x: Bytes, b: nat, y: Bytes)
    requires lines == [first, x, y] && Opening(first) && a < U64 && b < U64 && x == LengthLine(a) && y == LengthLine(b)
    ensures AllPlain(lines) && AllUtf8(lines) && |Words(lines[0])| >= 3
    ensures Awaited(lines) == a && AllTaken(lines[1..]) && LastLength(lines[1..]) == b
  {
    LengthLineTaken(a, x);
    LengthLineTaken(b, y);
    TwoLines(lines, first, x, y, a, b);
    ThreeTexts(lines);
  }

  lemma {:induction false} ThreeTexts(lines: seq<Bytes>)
    requires |lines| == 3 && Plain(lines[0]) && Plain(lines[1]) && Plain(lines[2])
    requires Utf8(lines[0]) && Utf8(lines[1]) && Utf8(lines[2])
    ensures AllPlain(lines) && AllUtf8(lines)
  {
  }

  lemma {:induction false} TwoLines(lines: seq<Bytes>, first: Bytes, x: Bytes, y: Bytes, a: nat, b: nat)
    requires lines == [first, x, y] && ScannedLength(first) == None && ScannedLength(x) == Some(a) && Taken(x)
    requires Taken(y) && IsLengthHeader(y) && ParsedLength(y) == Some(b)
    ensures Awaited(lines) == a && AllTaken(lines[1..]) && LastLength(lines[1..]) == b
  {
    FirstScannedUnfold(first, [x, y]);
    FirstScannedUnfold(x, [y]);
    assert lines == [first] + [x, y] && [x, y] == [x] + [y];
    LastOf(lines[1..], y);
  }

  lemma {:induction false} LastOf(lines: seq<Bytes>, line: Bytes)
    requires AllTaken(lines) && lines != [] && line == lines[|lines| - 1] && IsLengthHeader(line)
    ensures LastLength(lines) == ParsedLength(line).value
  {
  }

  /** The line the client writes is read alike by both. */
  lemma {:induction false} LengthLineRead(n: nat, line: Bytes)
    requires n < U64 && line == LengthLine(n)
    ensures Plain(line) && Utf8(line) && ScannedLength(line) == Some(n)
    ensures IsLengthHeader(line) && ParsedLength(line) == Some(n)
  {
    var start, name, before := LengthParts(n);
    DecimalAfter(before, ' ', n);
    TrimIsIdentity(name);
    LengthHeaderFrom(start, name, before, n, Decimal(n));
    LengthLineSpelled(n, line);
    LineReadExactly(line, n);
  }

  lemma {:induction false} LengthLineTaken(n: nat, line: Bytes)
    requires n < U64 && line == LengthLine(n)
    ensures Plain(line) && Utf8(line) && Taken(line) && ScannedLength(line) == Some(n)
    ensures IsLengthHeader(line) && ParsedLength(line) == Some(n)
  {
    LengthLineRead(n, line);
  }

  lemma {:induction false} LengthParts(n: nat) returns (start: Bytes, name: Bytes, before: Bytes)
    ensures LengthLine(n) == start + Decimal(n) && Prefix(start, name, before) && before == [' ']
    ensures EqIgnoreCase(name, "content-length") && Trimmed(name)
  {
    start, name, before := "Content-Length: ", "Content-Length", " ";
  }

  lemma {:induction false} LengthLineSpelled(n: nat, line: Bytes)
    requires line == LengthLine(n)
    ensures Spelled(line)
  {
    NameMatches(n);
    assert forall k :: 0 <= k < 15 ==> Lower(line[0 + k]) == LENGTH_HEADER[k];
    assert line[16] == Decimal(n)[0] && line[15] == ' ';
    assert DigitAfterBlanks(line, 16);
  }
}
