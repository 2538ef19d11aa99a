/** Completeness of HTTP messages (server/src/http.rs, client/src/response.rs) and the server's incremental
  * header scan (server/src/server.rs). A string stands for bytes, one char per byte.
  */
module Http {
  import opened Common

  type Bytes = string

  const CRLF: Bytes := "\r\n"
  const LENGTH_HEADER: Bytes := "content-length:"

  // ------------------------------------------------------------ end of headers

  predicate CrlfCrlf(buf: Bytes, i: nat)
  {
    i + 4 <= |buf| && buf[i] == '\r' && buf[i + 1] == '\n' && buf[i + 2] == '\r' && buf[i + 3] == '\n'
  }

  /** The first blank line at or after `from`. */
  function HeadersEnd(buf: Bytes, from: nat): (r: Option<nat>)
    ensures r.Some? ==>
              from <= r.value && CrlfCrlf(buf, r.value) && forall i: nat :: from <= i < r.value ==> !CrlfCrlf(buf, i)
    ensures r.None? ==> forall i: nat :: from <= i ==> !CrlfCrlf(buf, i)
    decreases |buf| - from
  {
    if from + 4 > |buf| then None else if CrlfCrlf(buf, from) then Some(from) else HeadersEnd(buf, from + 1)
  }

  lemma {:induction false} HeadersEndUnique(buf: Bytes, from: nat, e: nat)
    requires from <= e && CrlfCrlf(buf, e) && forall i: nat :: from <= i < e ==> !CrlfCrlf(buf, i)
    ensures HeadersEnd(buf, from) == Some(e)
  {
  }

  method FindHeadersEnd(buf: Bytes) returns (r: Option<nat>)
    ensures r == HeadersEnd(buf, 0)
  {
    var limit := if |buf| < 3 then 0 else |buf| - 3;
    for i := 0 to limit
      invariant forall j: nat :: j < i ==> !CrlfCrlf(buf, j)
    {
      var window := buf[i..i + 4];
      assert window == [buf[i], buf[i + 1], buf[i + 2], buf[i + 3]];
      if window == "\r\n\r\n" {
        HeadersEndUnique(buf, 0, i);
        return Some(i);
      }
    }
    return None;
  }

  // ------------------------------------------------------------ content length

  function Lower(c: char): (l: char) { if 'A' <= c <= 'Z' then c - 'A' + 'a' else c }

  predicate IsDigit(c: char) { '0' <= c <= '9' }

  function DigitValue(c: char): (d: nat)
    requires IsDigit(c)
    ensures d < 10
  {
    (c - '0') as int
  }

  /** A line starts at `i` with the Content-Length header name, in any case. */
  predicate LengthHeaderAt(headers: Bytes, i: nat)
  {
    && i + 15 <= |headers| && (i == 0 || headers[i - 1] == '\n')
    && forall k :: 0 <= k < 15 ==> Lower(headers[i + k]) == LENGTH_HEADER[k]
  }

  function FirstLengthHeader(headers: Bytes, from: nat): (r: Option<nat>)
    ensures r.Some? ==>
              && from <= r.value && LengthHeaderAt(headers, r.value)
              && forall i: nat :: from <= i < r.value ==> !LengthHeaderAt(headers, i)
    ensures r.None? ==> forall i: nat :: from <= i ==> !LengthHeaderAt(headers, i)
    decreases |headers| - from
  {
    if from + 15 > |headers| then None
    else if LengthHeaderAt(headers, from) then Some(from)
    else FirstLengthHeader(headers, from + 1)
  }

  function SkipSpaces(headers: Bytes, j: nat): (k: nat)
    requires j <= |headers|
    ensures j <= k <= |headers|
    decreases |headers| - j
  {
    if j < |headers| && headers[j] == ' ' then SkipSpaces(headers, j + 1) else j
  }

  /** The digits from `j` on as a number, in wrapping machine arithmetic. */
  function ReadDigits(headers: Bytes, j: nat, val: nat): (r: nat)
    requires j <= |headers|
    decreases |headers| - j
  {
    if j < |headers| && IsDigit(headers[j])
    then ReadDigits(headers, j + 1, (val * 10 + DigitValue(headers[j])) % U64) else val
  }

  function ContentLength(headers: Bytes): (r: Option<nat>)
  {
    match FirstLengthHeader(headers, 0)
    case None => None
    case Some(i) => Some(ReadDigits(headers, SkipSpaces(headers, i + 15), 0))
  }

  /** `eq_ignore_ascii_case` on the header name, as the scanner does it. */
  method MatchesName(headers: Bytes, i: nat) returns (b: bool)
    requires i + 15 <= |headers|
    ensures b <==> forall k :: 0 <= k < 15 ==> Lower(headers[i + k]) == LENGTH_HEADER[k]
  {
    if headers[i] != 'C' && headers[i] != 'c' {
      assert Lower(headers[i + 0]) != LENGTH_HEADER[0];
      return false;
    }
    for k := 1 to 15
      invariant forall m :: 0 <= m < k ==> Lower(headers[i + m]) == LENGTH_HEADER[m]
    {
      if Lower(headers[i + k]) != LENGTH_HEADER[k] {
        return false;
      }
    }
    return true;
  }

  /** `find_content_length_bytes`, and the client's `find_content_length`. */
  method FindContentLength(headers: Bytes) returns (r: Option<nat>)
    ensures r == ContentLength(headers)
  {
    if |headers| < 15 {
      return None;
    }
    var i := 0;
    while i + 15 <= |headers|
      invariant FirstLengthHeader(headers, 0) == FirstLengthHeader(headers, i)
    {
      var atLineStart := i == 0 || headers[i - 1] == '\n';
      if atLineStart {
        var matches := MatchesName(headers, i);
        if matches {
          var j := i + 15;
          while j < |headers| && headers[j] == ' '
            invariant i + 15 <= j <= |headers| && SkipSpaces(headers, j) == SkipSpaces(headers, i + 15)
          {
            j := j + 1;
          }
          var val: nat := 0;
          while j < |headers| && IsDigit(headers[j])
            invariant j <= |headers|
            invariant ReadDigits(headers, j, val) == ReadDigits(headers, SkipSpaces(headers, i + 15), 0)
          {
            val := (val * 10 + DigitValue(headers[j])) % U64;
            j := j + 1;
          }
          return Some(val);
        }
      }
      i := i + 1;
    }
    return None;
  }

  // ------------------------------------------------------------ completeness

  predicate BodyComplete(buf: Bytes, headersEnd: nat)
    requires headersEnd <= |buf|
  {
    match ContentLength(buf[..headersEnd])
    case Some(n) => (if headersEnd + 4 <= |buf| then |buf| - (headersEnd + 4) else 0) >= n
    case None => true
  }

  /** `is_complete`, the same on both sides. */
  predicate IsComplete(buf: Bytes)
  {
    match HeadersEnd(buf, 0)
    case Some(e) => BodyComplete(buf, e)
    case None => false
  }

  method CheckBodyComplete(buf: Bytes, headersEnd: nat) returns (b: bool)
    requires headersEnd <= |buf|
    ensures b == BodyComplete(buf, headersEnd)
  {
    var n := FindContentLength(buf[..headersEnd]);
    if n.Some? {
      var available := if headersEnd + 4 <= |buf| then |buf| - (headersEnd + 4) else 0;
      return available >= n.value;
    }
    return true;
  }

  // ------------------------------------------------------------ incremental scan

  /** No blank line ends within the first `n` bytes. */
  ghost predicate Scanned(buf: Bytes, n: nat)
  {
    forall i: nat :: i + 4 <= n ==> !CrlfCrlf(buf, i)
  }

  /** The receive side of a server connection. */
  class Connection {
    var recvBuf: Bytes
    var lastScannedPos: nat
    var headersEndCache: Option<nat>

    ghost predicate Valid()
      reads this
    {
      && (headersEndCache.Some? ==> HeadersEnd(recvBuf, 0) == headersEndCache)
      && (headersEndCache.None? ==> lastScannedPos <= |recvBuf| && Scanned(recvBuf, lastScannedPos))
    }

    constructor ()
      ensures Valid() && recvBuf == "" && headersEndCache.None?
    {
      recvBuf, lastScannedPos, headersEndCache := "", 0, None;
    }

    /** What `try_read` does with the bytes of one read. */
    method Extend(bytes: Bytes)
      requires Valid()
      modifies this`recvBuf
      ensures Valid() && recvBuf == old(recvBuf) + bytes
    {
      ghost var before := recvBuf;
      recvBuf := recvBuf + bytes;
      CrlfCrlfKept(before, bytes);
      if headersEndCache.Some? {
        HeadersEndUnique(recvBuf, 0, headersEndCache.value);
      }
    }

    /** Scans only bytes not scanned before, three bytes back, or none once the end is cached. Refines the scan
      * from scratch.
      */
    method IsRequestComplete() returns (b: bool)
      requires Valid()
      modifies this`lastScannedPos, this`headersEndCache
      ensures Valid() && b == IsComplete(recvBuf) && headersEndCache == HeadersEnd(recvBuf, 0)
    {
      var bufLen := |recvBuf|;
      if headersEndCache.Some? {
        b := CheckBodyComplete(recvBuf, headersEndCache.value);
        return;
      }
      if bufLen < 4 {
        return false;
      }
      var start := if lastScannedPos < 3 then 0 else lastScannedPos - 3;
      for i := start to bufLen - 3
        invariant Valid() && headersEndCache.None?
        invariant forall j: nat :: j < i ==> !CrlfCrlf(recvBuf, j)
      {
        if CrlfCrlf(recvBuf, i) {
          HeadersEndUnique(recvBuf, 0, i);
          headersEndCache := Some(i);
          lastScannedPos := bufLen;
          b := CheckBodyComplete(recvBuf, i);
          return;
        }
      }
      lastScannedPos := bufLen;
      b := false;
    }

    method ClearRecvBuf()
      modifies this
      ensures Valid() && recvBuf == "" && headersEndCache.None?
    {
      recvBuf, lastScannedPos, headersEndCache := "", 0, None;
    }

    /** A request that arrives in any pieces, with a check after each piece. */
    method Feed(chunks: seq<Bytes>) returns (answers: seq<bool>)
      requires Valid()
      modifies this
      ensures Valid() && recvBuf == old(recvBuf) + Joined(chunks) && |answers| == |chunks|
      ensures forall i :: 0 <= i < |chunks| ==> answers[i] == IsComplete(old(recvBuf) + Joined(chunks[..i + 1]))
      ensures chunks != [] ==> headersEndCache == HeadersEnd(recvBuf, 0)
    {
      answers := [];
      for i := 0 to |chunks|
        invariant Valid() && recvBuf == old(recvBuf) + Joined(chunks[..i]) && |answers| == i
        invariant forall j :: 0 <= j < i ==> answers[j] == IsComplete(old(recvBuf) + Joined(chunks[..j + 1]))
        invariant i > 0 ==> headersEndCache == HeadersEnd(recvBuf, 0)
      {
        Extend(chunks[i]);
        assert chunks[..i + 1][..i] == chunks[..i];
        assert recvBuf == old(recvBuf) + Joined(chunks[..i + 1]);
        var complete := IsRequestComplete();
        answers := answers + [complete];
      }
      assert chunks[..|chunks|] == chunks;
    }
  }

  ghost function Joined(chunks: seq<Bytes>): (b: Bytes)
  {
    if chunks == [] then "" else Joined(chunks[..|chunks| - 1]) + chunks[|chunks| - 1]
  }

  lemma {:induction false} CrlfCrlfKept(before: Bytes, more: Bytes)
    ensures forall i: nat :: i + 4 <= |before| ==> CrlfCrlf(before + more, i) == CrlfCrlf(before, i)
  {
    var after := before + more;
    assert forall k :: 0 <= k < |before| ==> after[k] == before[k];
  }
}
