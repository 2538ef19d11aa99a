/** Building and parsing HTTP messages: the server's response builder against the client's completeness check,
  * and the client's request builder against the server's check and parser (server/src/http.rs,
  * client/src/request.rs, client/src/response.rs).
  */
module HttpMessages {
  import opened Common
  import opened Http

  // ------------------------------------------------------------ lines

  /** Text that fits on a header line: not empty, no CR, no LF. */
  predicate Plain(line: Bytes)
  {
    |line| > 0 && NoBreaks(line)
  }

  predicate NoBreaks(line: Bytes)
  {
    forall i :: 0 <= i < |line| ==> line[i] != '\r' && line[i] != '\n'
  }

  predicate AllPlain(lines: seq<Bytes>)
  {
    forall i :: 0 <= i < |lines| ==> Plain(lines[i])
  }

  function Head(lines: seq<Bytes>): (h: Bytes)
  {
    if lines == [] then "" else lines[0] + CRLF + Head(lines[1..])
  }

  function Message(lines: seq<Bytes>, body: Bytes): (m: Bytes)
  {
    Head(lines) + CRLF + body
  }

  lemma {:induction false} HeadAppend(a: seq<Bytes>, b: seq<Bytes>)
    ensures Head(a + b) == Head(a) + Head(b)
  {
    if a == [] {
      assert a + b == b;
    } else {
      assert (a + b)[1..] == a[1..] + b;
      HeadAppend(a[1..], b);
    }
  }

  /** A CR is never preceded by an LF: no line is empty. */
  ghost predicate NoEmptyLine(s: Bytes)
  {
    forall p :: 0 <= p < |s| && s[p] == '\r' ==> p > 0 && s[p - 1] != '\n'
  }

  lemma {:induction false} HeadHasNoEmptyLine(lines: seq<Bytes>)
    requires AllPlain(lines)
    ensures NoEmptyLine(Head(lines)) && |Head(lines)| >= 2 * |lines|
    ensures lines != [] ==> Head(lines)[0] != '\r' && Head(lines)[|Head(lines)| - 2..] == CRLF
  {
    if lines != [] {
      HeadHasNoEmptyLine(lines[1..]);
      var first, rest := lines[0] + CRLF, Head(lines[1..]);
      assert Plain(lines[0]);
      assert Head(lines) == first + rest;
      assert rest == "" || rest[0] != '\r';
      forall p | 0 <= p < |first + rest| && (first + rest)[p] == '\r'
        ensures p > 0 && (first + rest)[p - 1] != '\n'
      {
        assert p < |first| || rest[p - |first|] == '\r';
      }
    }
  }

  /** The blank line found is the one after the last header, whatever the body holds. */
  lemma {:induction false} NoEarlierEnd(lines: seq<Bytes>, body: Bytes, i: nat)
    requires AllPlain(lines) && lines != [] && i + 2 < |Head(lines)|
    ensures !CrlfCrlf(Message(lines, body), i)
  {
    HeadHasNoEmptyLine(lines);
    var m := Message(lines, body);
    assert m[i + 2] == Head(lines)[i + 2] && m[i + 1] == Head(lines)[i + 1];
  }

  lemma {:induction false} EndAfterHead(lines: seq<Bytes>, body: Bytes)
    requires AllPlain(lines) && lines != []
    ensures |Head(lines)| >= 2 && HeadersEnd(Message(lines, body), 0) == Some(|Head(lines)| - 2)
  {
    HeadHasNoEmptyLine(lines);
    var m, e := Message(lines, body), |Head(lines)| - 2;
    assert m[e..e + 4] == "\r\n\r\n" by { assert m[e..e + 2] == Head(lines)[e..] && m[e + 2..e + 4] == CRLF; }
    assert m[e..e + 4] == [m[e], m[e + 1], m[e + 2], m[e + 3]];
    forall i: nat | i < e ensures !CrlfCrlf(m, i) {
      NoEarlierEnd(lines, body, i);
    }
    HeadersEndUnique(m, 0, e);
  }

  // ------------------------------------------------------------ decimal numbers

  function DigitChar(d: nat): (c: char)
    requires d < 10
    ensures IsDigit(c) && DigitValue(c) == d
  {
    d as char + '0'
  }

  /** `itoa`. */
  function Decimal(n: nat): (s: Bytes)
    ensures |s| > 0 && forall i :: 0 <= i < |s| ==> IsDigit(s[i])
  {
    if n < 10 then [DigitChar(n)] else Decimal(n / 10) + [DigitChar(n % 10)]
  }

  lemma {:induction false} ReadDecimal(h: Bytes, j: nat, n: nat)
    requires n < U64 && j + |Decimal(n)| <= |h| && h[j..j + |Decimal(n)|] == Decimal(n)
    ensures ReadDigits(h, j, 0) == ReadDigits(h, j + |Decimal(n)|, n)
  {
    var len := |Decimal(n)|;
    var last := j + len - 1;
    DecimalLast(n);
    assert h[last] == h[j..j + len][len - 1];
    if n < 10 {
      ReadOneDigit(h, last, 0, n);
    } else {
      assert h[j..last] == h[j..j + len][..len - 1] == Decimal(n / 10);
      ReadDecimal(h, j, n / 10);
      ReadOneDigit(h, last, n / 10, n % 10);
    }
  }

  lemma {:induction false} DecimalLast(n: nat)
    ensures Decimal(n)[|Decimal(n)| - 1] == DigitChar(n % 10)
    ensures n >= 10 ==> Decimal(n)[..|Decimal(n)| - 1] == Decimal(n / 10)
  {
  }

  lemma {:induction false} ReadOneDigit(h: Bytes, j: nat, val: nat, d: nat)
    requires j < |h| && d < 10 && h[j] == DigitChar(d) && val * 10 + d < U64
    ensures ReadDigits(h, j, val) == ReadDigits(h, j + 1, val * 10 + d)
  {
    assert (val * 10 + DigitValue(h[j])) % U64 == val * 10 + d;
  }

  // ------------------------------------------------------------ the length line

  /** A line that is not a Content-Length header, seen within its first 15 characters. */
  ghost predicate Differs(line: Bytes)
  {
    exists k :: 0 <= k < |line| && k < 15 && Lower(line[k]) != LENGTH_HEADER[k]
  }

  ghost predicate AllDiffer(lines: seq<Bytes>)
  {
    forall j :: 0 <= j < |lines| ==> Differs(lines[j])
  }

  lemma {:induction false} NoLengthBefore(pre: seq<Bytes>, rest: Bytes, i: nat)
    requires AllPlain(pre) && AllDiffer(pre) && i < |Head(pre)|
    ensures !LengthHeaderAt(Head(pre) + rest, i)
  {
    var h := Head(pre) + rest;
    var line, n := pre[0], |pre[0]| + 2;
    assert Plain(line) && Differs(line) && h == line + CRLF + (Head(pre[1..]) + rest);
    if i == 0 {
      var k :| 0 <= k < |line| && k < 15 && Lower(line[k]) != LENGTH_HEADER[k];
      assert h[0 + k] == line[k];
    } else if i < n {
      assert h[i - 1] == (line + CRLF)[i - 1];
    } else {
      var tail := Head(pre[1..]) + rest;
      assert h[n..] == tail;
      NoLengthBefore(pre[1..], rest, i - n);
      LengthInSuffix(h, n, i);
    }
  }

  lemma {:induction false} LengthInSuffix(h: Bytes, n: nat, i: nat)
    requires n <= i && n <= |h|
    ensures LengthHeaderAt(h, i) ==> LengthHeaderAt(h[n..], i - n)
  {
    var tail := h[n..];
    if LengthHeaderAt(h, i) {
      forall k | 0 <= k < 15 ensures Lower(tail[i - n + k]) == LENGTH_HEADER[k] {
        assert h[i + k] == tail[i - n + k];
      }
    }
  }

  function LengthLine(n: nat): (line: Bytes) { "Content-Length: " + Decimal(n) }

  lemma {:induction false} LengthLineFound(h: Bytes, i: nat, n: nat)
    requires i + |LengthLine(n)| <= |h| && h[i..i + |LengthLine(n)|] == LengthLine(n) && (i == 0 || h[i - 1] == '\n')
    ensures LengthHeaderAt(h, i) && SkipSpaces(h, i + 15) == i + 16 && h[i + 16..i + |LengthLine(n)|] == Decimal(n)
  {
    var line := LengthLine(n);
    var slice := h[i..i + |line|];
    assert forall k :: 0 <= k < |slice| ==> slice[k] == h[i + k];
    NameMatches(n);
    assert line[16] == Decimal(n)[0];
    assert h[i + 15] == ' ' && IsDigit(h[i + 16]);
    assert h[i + 16..i + |line|] == line[16..] == Decimal(n);
  }

  lemma {:induction false} NameMatches(n: nat)
    ensures forall k :: 0 <= k < 15 ==> Lower(LengthLine(n)[k]) == LENGTH_HEADER[k]
  {
    var name := "Content-Length:";
    assert forall k :: 0 <= k < 15 ==> LengthLine(n)[k] == name[k];
    assert forall k :: 0 <= k < 15 ==> Lower(name[k]) == LENGTH_HEADER[k];
  }

  lemma {:induction false} LengthIsScanned(pre: seq<Bytes>, n: nat, line: Bytes, t: Bytes)
    requires AllPlain(pre) && AllDiffer(pre) && n < U64 && (t == "" || t[0] == '\r')
    requires line == LengthLine(n)
    ensures ContentLength(Head(pre) + (line + t)) == Some(n)
  {
    var i, rest := |Head(pre)|, line + t;
    var h := Head(pre) + rest;
    LengthLineAfter(pre, line, t);
    LengthLineRead(h, i, n, line);
    forall j: nat | j < i ensures !LengthHeaderAt(h, j) {
      NoLengthBefore(pre, rest, j);
    }
    ContentLengthIs(h, i, i + 16, n);
  }

  lemma {:induction false} LengthLineRead(h: Bytes, i: nat, n: nat, line: Bytes)
    requires line == LengthLine(n) && n < U64 && i + |line| <= |h| && h[i..i + |line|] == line
             && (i == 0 || h[i - 1] == '\n')
    requires i + |line| == |h| || h[i + |line|] == '\r'
    ensures LengthHeaderAt(h, i) && SkipSpaces(h, i + 15) == i + 16 && ReadDigits(h, i + 16, 0) == n
  {
    LengthLineFound(h, i, n);
    LengthValue(h, i + 16, n);
  }

  lemma {:induction false} LengthValue(h: Bytes, j: nat, n: nat)
    requires n < U64 && j + |Decimal(n)| <= |h| && h[j..j + |Decimal(n)|] == Decimal(n)
    requires j + |Decimal(n)| == |h| || h[j + |Decimal(n)|] == '\r'
    ensures ReadDigits(h, j, 0) == n
  {
    ReadDecimal(h, j, n);
    DigitsStop(h, j + |Decimal(n)|, n);
  }

  lemma {:induction false} ContentLengthIs(h: Bytes, i: nat, j: nat, n: nat)
    requires LengthHeaderAt(h, i) && forall k: nat :: k < i ==> !LengthHeaderAt(h, k)
    requires SkipSpaces(h, i + 15) == j && ReadDigits(h, j, 0) == n
    ensures ContentLength(h) == Some(n)
  {
  }

  lemma {:induction false} LengthLineAfter(pre: seq<Bytes>, line: Bytes, t: Bytes)
    requires AllPlain(pre) && (t == "" || t[0] == '\r')
    ensures var h, i := Head(pre) + (line + t), |Head(pre)|;
            && i + |line| <= |h| && h[i..i + |line|] == line && (i == 0 || h[i - 1] == '\n')
            && (i + |line| == |h| || h[i + |line|] == '\r')
  {
    HeadHasNoEmptyLine(pre);
    var h, i := Head(pre) + (line + t), |Head(pre)|;
    assert i > 0 ==> h[i - 1] == Head(pre)[i - 2..][1];
    assert |t| > 0 ==> h[i + |line|] == t[0];
  }

  lemma {:induction false} DigitsStop(h: Bytes, j: nat, val: nat)
    requires j == |h| || (j < |h| && h[j] == '\r')
    ensures ReadDigits(h, j, val) == val
  {
  }

  lemma {:induction false} HeadSplit(pre: seq<Bytes>, line: Bytes, post: seq<Bytes>)
    ensures Head(pre + [line] + post) == Head(pre) + (line + (CRLF + Head(post)))
  {
    HeadAppend(pre + [line], post);
    HeadAppend(pre, [line]);
    assert Head([line]) == line + CRLF + "";
  }

  lemma {:induction false} DropTwo(a: Bytes, b: Bytes, c: Bytes)
    requires |c| >= 2
    ensures var full := a + (b + c); full[..|full| - 2] == a + (b + c[..|c| - 2])
  {
  }

  /** The header lines before the final blank line, as the scanners see them. */
  lemma {:induction false} LengthIsRead(pre: seq<Bytes>, n: nat, line: Bytes, post: seq<Bytes>)
    requires AllPlain(pre) && AllDiffer(pre) && n < U64 && line == LengthLine(n)
    ensures var lines := pre + [line] + post;
            |Head(lines)| >= 2 && ContentLength(Head(lines)[..|Head(lines)| - 2]) == Some(n)
  {
    var t := HeadCut(pre, line, post);
    LengthIsScanned(pre, n, line, t);
  }

  lemma {:induction false} HeadCut(pre: seq<Bytes>, line: Bytes, post: seq<Bytes>) returns (t: Bytes)
    ensures t == "" || t[0] == '\r'
    ensures var h := Head(pre + [line] + post); |h| >= 2 && h[..|h| - 2] == Head(pre) + (line + t)
  {
    var after := CRLF + Head(post);
    t := after[..|after| - 2];
    HeadSplit(pre, line, post);
    DropTwo(Head(pre), line, after);
    assert after[0] == '\r';
  }

  // ------------------------------------------------------------ framing

  /** Main framing theorem. A message with a truthful length line is complete; no proper prefix of it is; and
    * the body is everything after the blank line.
    */
  lemma {:induction false} Framing(pre: seq<Bytes>, post: seq<Bytes>, body: Bytes)
    requires AllPlain(pre) && AllDiffer(pre) && AllPlain(post) && |body| < U64
    ensures var m := Message(pre + [LengthLine(|body|)] + post, body);
            && IsComplete(m) && (forall n: nat :: n < |m| ==> !IsComplete(m[..n]))
            && HeadersEnd(m, 0).Some? && m[HeadersEnd(m, 0).value + 4..] == body
  {
    var lines := pre + [LengthLine(|body|)] + post;
    var m := Message(lines, body);
    assert Plain(LengthLine(|body|));
    assert AllPlain(lines);
    LengthIsRead(pre, |body|, LengthLine(|body|), post);
    WholeComplete(lines, body);
    forall n: nat | n < |m| ensures !IsComplete(m[..n]) {
      PrefixIncomplete(lines, body, n);
    }
  }

  lemma {:induction false} WholeComplete(lines: seq<Bytes>, body: Bytes)
    requires AllPlain(lines) && lines != []
    requires |Head(lines)| >= 2 && ContentLength(Head(lines)[..|Head(lines)| - 2]) == Some(|body|)
    ensures var m := Message(lines, body);
            IsComplete(m) && HeadersEnd(m, 0) == Some(|Head(lines)| - 2) && m[|Head(lines)| + 2..] == body
  {
    var m, e := Message(lines, body), |Head(lines)| - 2;
    EndAfterHead(lines, body);
    assert m[..e] == Head(lines)[..e];
    assert m[e + 4..] == body;
  }

  lemma {:induction false} PrefixIncomplete(lines: seq<Bytes>, body: Bytes, n: nat)
    requires AllPlain(lines) && lines != [] && n < |Message(lines, body)|
    requires |Head(lines)| >= 2 && ContentLength(Head(lines)[..|Head(lines)| - 2]) == Some(|body|)
    ensures !IsComplete(Message(lines, body)[..n])
  {
    var m, e := Message(lines, body), |Head(lines)| - 2;
    var p := m[..n];
    CrlfCrlfKept(p, m[n..]);
    assert m == p + m[n..];
    forall i: nat | i < e ensures !CrlfCrlf(p, i) {
      NoEarlierEnd(lines, body, i);
    }
    if e + 4 <= n {
      EndAfterHead(lines, body);
      HeadersEndUnique(p, 0, e);
      assert p[..e] == Head(lines)[..e];
    }
  }
}
