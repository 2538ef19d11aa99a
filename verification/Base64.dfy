/** The base64 encoder of the QUIC side (quic/src/tls.rs) and the decoder of the server (server/src/request.rs).
  * Where the source combines disjoint bit fields with `|`, the model adds them.
  */
module Base64 {
  import opened Common
  import opened Text

  const UPPER: string := "ABCDEFGHIJKLMNOPQRSTUVWXYZ"
  const LOWER: string := "abcdefghijklmnopqrstuvwxyz"
  const NUMERALS: string := "0123456789"
  const ALPHABET: string := UPPER + LOWER + NUMERALS + "+/"
  const INVALID: nat := 255

  datatype Result<T> = Ok(value: T) | Err(position: nat)

  /** The alphabet's character for a six-bit digit. */
  function Char(digit: nat): (c: char)
    requires digit < 64
  {
    if digit < 26 then 'A' + digit as char
    else if digit < 52 then 'a' + (digit - 26) as char
    else if digit < 62 then '0' + (digit - 52) as char
    else if digit == 62 then '+' else '/'
  }

  /** `DECODE_TABLE`. */
  function Table(c: char): (digit: nat)
    ensures digit < 64 || digit == INVALID
  {
    if 'A' <= c <= 'Z' then (c - 'A') as int
    else if 'a' <= c <= 'z' then (c - 'a') as int + 26
    else if '0' <= c <= '9' then (c - '0') as int + 52
    else if c == '+' then 62
    else if c == '/' then 63
    else INVALID
  }

  lemma {:induction false} TableInvertsChar(digit: nat)
    requires digit < 64
    ensures Table(Char(digit)) == digit && Char(digit) != '=' && Visible(Char(digit))
  {
  }

  lemma {:induction false} AlphabetIsChar(digit: nat)
    requires digit < 64
    ensures ALPHABET[digit] == Char(digit)
  {
    if digit < 26 {
      UpperIs(digit);
    } else if digit < 52 {
      LowerIs(digit - 26);
    } else if digit < 62 {
      NumeralIs(digit - 52);
    }
  }

  lemma {:induction false} NumeralIs(i: nat)
    requires i < 10
    ensures NUMERALS[i] == '0' + i as char
  {
  }

  lemma {:induction false} UpperIs(i: nat)
    requires i < 26
    ensures UPPER[i] == 'A' + i as char
  {
  }

  lemma {:induction false} LowerIs(i: nat)
    requires i < 26
    ensures LOWER[i] == 'a' + i as char
  {
  }

  // ------------------------------------------------------------ encoder

  function ByteAt(chunk: seq<Byte>, i: nat): (b: Byte) { if i < |chunk| then chunk[i] else 0 }

  function Triple(chunk: seq<Byte>): (t: nat)
  {
    ByteAt(chunk, 0) as int * 65536 + ByteAt(chunk, 1) as int * 256 + ByteAt(chunk, 2)
  }

  /** Four characters for one to three bytes. */
  function EncodeGroup(chunk: seq<Byte>): (s: string)
    ensures |s| == 4
  {
    var t := Triple(chunk);
    [Char(t / 262144 % 64), Char(t / 4096 % 64),
     if |chunk| > 1 then Char(t / 64 % 64) else '=', if |chunk| > 2 then Char(t % 64) else '=']
  }

  function Encoded(data: seq<Byte>): (s: string)
  {
    if data == [] then ""
    else if |data| <= 3 then EncodeGroup(data)
    else EncodeGroup(data[..3]) + Encoded(data[3..])
  }

  method PushGroup(result: string, chunk: seq<Byte>) returns (result': string)
    ensures result' == result + EncodeGroup(chunk)
  {
    var triple := Triple(chunk);
    AlphabetIsChar(triple / 262144 % 64);
    AlphabetIsChar(triple / 4096 % 64);
    AlphabetIsChar(triple / 64 % 64);
    AlphabetIsChar(triple % 64);
    result' := result + [ALPHABET[triple / 262144 % 64]];
    result' := result' + [ALPHABET[triple / 4096 % 64]];
    result' := result' + [if |chunk| > 1 then ALPHABET[triple / 64 % 64] else '='];
    result' := result' + [if |chunk| > 2 then ALPHABET[triple % 64] else '='];
  }

  /** `base64_encode`. */
  method Encode(data: seq<Byte>) returns (result: string)
    ensures result == Encoded(data)
  {
    result := "";
    var i := 0;
    while i < |data|
      invariant i <= |data| && result + Encoded(data[i..]) == Encoded(data)
    {
      var end := if i + 3 <= |data| then i + 3 else |data|;
      EncodedFrom(data, i, end);
      Associative(result, EncodeGroup(data[i..end]), Encoded(data[end..]));
      result := PushGroup(result, data[i..end]);
      i := end;
    }
  }

  lemma {:induction false} EncodedFrom(data: seq<Byte>, i: nat, end: nat)
    requires i < |data| && end == if i + 3 <= |data| then i + 3 else |data|
    ensures Encoded(data[i..]) == EncodeGroup(data[i..end]) + Encoded(data[end..])
  {
    var rest := data[i..];
    assert rest[..end - i] == data[i..end] && rest[end - i..] == data[end..];
    EncodedStep(rest, end - i);
  }

  lemma {:induction false} Associative<T>(a: seq<T>, b: seq<T>, c: seq<T>)
    ensures a + (b + c) == (a + b) + c
  {
  }

  lemma {:induction false} EncodedStep(data: seq<Byte>, n: nat)
    requires data != [] && n == if |data| < 3 then |data| else 3
    ensures Encoded(data) == EncodeGroup(data[..n]) + Encoded(data[n..])
  {
    if |data| <= 3 {
      assert data[..n] == data;
    }
  }

  // ------------------------------------------------------------ decoder

  /** Number of padding characters at the end. */
  function Padding(s: string): (n: nat)
    ensures n <= |s|
  {
    if s != "" && s[|s| - 1] == '=' then 1 + Padding(s[..|s| - 1]) else 0
  }

  function First(a: nat, b: nat): (x: Byte)
    requires a < 64 && b < 64
  {
    (a * 4) % 256 + b / 16
  }

  function Second(b: nat, c: nat): (x: Byte)
    requires b < 64 && c < 64
  {
    (b * 16) % 256 + c / 4
  }

  /** `c` is INVALID here when the third character is padding and the fourth is not. */
  function Third(c: nat, d: nat): (x: Byte)
    requires (c < 64 || c == INVALID) && d < 64
  {
    (c * 64) % 256 + d
  }

  /** The bytes of the group at `i`, in truncating u8 arithmetic. */
  function DecodeGroup(s: string, i: nat): (r: Result<seq<Byte>>)
    requires i + 4 <= |s|
  {
    var a, b, c, d := Table(s[i]), Table(s[i + 1]), Table(s[i + 2]), Table(s[i + 3]);
    if a == INVALID || b == INVALID then Err(i)
    else if s[i + 2] != '=' && c == INVALID then Err(i + 2)
    else if s[i + 3] != '=' && d == INVALID then Err(i + 3)
    else Ok([First(a, b)]
            + (if s[i + 2] != '=' then [Second(b, c)] else [])
            + (if s[i + 3] != '=' then [Third(c, d)] else []))
  }

  /** All groups from `i` on; an incomplete last group is ignored. */
  function Groups(s: string, i: nat): (r: Result<seq<Byte>>)
    decreases |s| - i
  {
    if i + 4 > |s| then Ok([])
    else match DecodeGroup(s, i)
      case Err(p) => Err(p)
      case Ok(bytes) =>
        match Groups(s, i + 4) case Err(p) => Err(p) case Ok(rest) => Ok(bytes + rest)
  }

  function Decoded(input: string): (r: Result<seq<Byte>>)
  {
    var s := Trim(input);
    if |s| - Padding(s) == 0 then Ok([]) else Groups(s, 0)
  }

  /** What the loop has pushed, followed by what the remaining groups give. */
  function After(output: seq<Byte>, rest: Result<seq<Byte>>): (r: Result<seq<Byte>>)
  {
    match rest case Err(p) => Err(p) case Ok(bytes) => Ok(output + bytes)
  }

  lemma {:induction false} AfterNothing(rest: Result<seq<Byte>>)
    ensures After([], rest) == rest
  {
    if rest.Ok? { assert [] + rest.value == rest.value; }
  }

  lemma {:induction false} AfterGroup(output: seq<Byte>, s: string, i: nat)
    requires i + 4 <= |s| && DecodeGroup(s, i).Ok?
    ensures After(output, Groups(s, i)) == After(output + DecodeGroup(s, i).value, Groups(s, i + 4))
  {
    var bytes, rest := DecodeGroup(s, i).value, Groups(s, i + 4);
    assert Groups(s, i) == After(bytes, rest);
    if rest.Ok? { Associative(output, bytes, rest.value); }
  }

  /** `base64_decode`. */
  method Decode(input: string) returns (r: Result<seq<Byte>>)
    ensures r == Decoded(input)
  {
    var s := Trim(input);
    if |s| - Padding(s) == 0 {
      return Ok([]);
    }
    var output: seq<Byte> := [];
    var i := 0;
    AfterNothing(Groups(s, 0));
    while i + 4 <= |s|
      invariant Groups(s, 0) == After(output, Groups(s, i))
    {
      var a, b, c, d := Table(s[i]), Table(s[i + 1]), Table(s[i + 2]), Table(s[i + 3]);
      ghost var before := output;
      if a == INVALID || b == INVALID {
        return Err(i);
      }
      output := output + [First(a, b)];
      if s[i + 2] != '=' {
        if c == INVALID {
          return Err(i + 2);
        }
        output := output + [Second(b, c)];
      }
      if s[i + 3] != '=' {
        if d == INVALID {
          return Err(i + 3);
        }
        output := output + [Third(c, d)];
      }
      assert DecodeGroup(s, i).Ok? && output == before + DecodeGroup(s, i).value;
      AfterGroup(before, s, i);
      i := i + 4;
    }
    assert output + [] == output;
    return Ok(output);
  }

  // ------------------------------------------------------------ round trip

  /** The four six-bit digits of three bytes. */
  lemma {:induction false} DigitsOf(b0: nat, b1: nat, b2: nat)
    requires b0 < 256 && b1 < 256 && b2 < 256
    ensures var t := b0 * 65536 + b1 * 256 + b2;
            && t / 262144 % 64 == b0 / 4 && t / 4096 % 64 == (b0 % 4) * 16 + b1 / 16
            && t / 64 % 64 == (b1 % 16) * 4 + b2 / 64 && t % 64 == b2 % 64
  {
    TopDigits(b0, b1, b2);
    LowDigits(b0, b1, b2);
  }

  lemma {:induction false} TopDigits(b0: nat, b1: nat, b2: nat)
    requires b0 < 256 && b1 < 256 && b2 < 256
    ensures var t := b0 * 65536 + b1 * 256 + b2;
            t / 262144 % 64 == b0 / 4 && t / 4096 % 64 == (b0 % 4) * 16 + b1 / 16
  {
    var t := b0 * 65536 + b1 * 256 + b2;
    var q, r, h := b0 / 4, b0 % 4, b1 / 16;
    assert t / 262144 == q;
    assert t / 4096 == 64 * q + (r * 16 + h);
  }

  lemma {:induction false} LowDigits(b0: nat, b1: nat, b2: nat)
    requires b0 < 256 && b1 < 256 && b2 < 256
    ensures var t := b0 * 65536 + b1 * 256 + b2;
            t / 64 % 64 == (b1 % 16) * 4 + b2 / 64 && t % 64 == b2 % 64
  {
    var t := b0 * 65536 + b1 * 256 + b2;
    var h, l, m := b1 / 16, b1 % 16, b2 / 64;
    assert t / 64 == 64 * (b0 * 16 + h) + (l * 4 + m);
    assert t == 64 * (b0 * 1024 + b1 * 4 + m) + b2 % 64;
  }

  lemma {:induction false} FirstIs(q: nat, r: nat, h: nat)
    requires q < 64 && r < 4 && h < 16
    ensures First(q, r * 16 + h) == q * 4 + r
  {
  }

  lemma {:induction false} SecondIs(r: nat, h: nat, l: nat, m: nat)
    requires r < 4 && h < 16 && l < 16 && m < 4
    ensures Second(r * 16 + h, l * 4 + m) == h * 16 + l
  {
    var x := h * 16;
    assert (r * 16 + h) * 16 == r * 256 + x && (r * 256 + x) % 256 == x;
    assert (l * 4 + m) / 4 == l;
  }

  lemma {:induction false} ThirdIs(l: nat, m: nat, k: nat)
    requires l < 16 && m < 4 && k < 64
    ensures Third(l * 4 + m, k) == m * 64 + k
  {
    assert (l * 4 + m) * 64 == l * 256 + m * 64;
  }

  /** The digits of a chunk, without the arithmetic that finds them. */
  lemma {:induction false} GroupDigits(chunk: seq<Byte>) returns (a: nat, b: nat, c: nat, d: nat)
    ensures a < 64 && b < 64 && c < 64 && d < 64
    ensures EncodeGroup(chunk)
            == [Char(a), Char(b), if |chunk| > 1 then Char(c) else '=', if |chunk| > 2 then Char(d) else '=']
    ensures First(a, b) == ByteAt(chunk, 0) && Second(b, c) == ByteAt(chunk, 1) && Third(c, d) == ByteAt(chunk, 2)
  {
    var t := Triple(chunk);
    a, b, c, d := t / 262144 % 64, t / 4096 % 64, t / 64 % 64, t % 64;
    DigitsOf(ByteAt(chunk, 0), ByteAt(chunk, 1), ByteAt(chunk, 2));
    DigitsToBytes(ByteAt(chunk, 0), ByteAt(chunk, 1), ByteAt(chunk, 2), a, b, c, d);
  }

  lemma {:induction false} DigitsToBytes(b0: nat, b1: nat, b2: nat, a: nat, b: nat, c: nat, d: nat)
    requires b0 < 256 && b1 < 256 && b2 < 256
    requires a == b0 / 4 && b == (b0 % 4) * 16 + b1 / 16 && c == (b1 % 16) * 4 + b2 / 64 && d == b2 % 64
    ensures First(a, b) == b0 && Second(b, c) == b1 && Third(c, d) == b2
  {
    var q, r, h, l, m := b0 / 4, b0 % 4, b1 / 16, b1 % 16, b2 / 64;
    FirstIs(q, r, h);
    SecondIs(r, h, l, m);
    ThirdIs(l, m, d);
  }

  lemma {:induction false} GroupRoundTrip(s: string, i: nat, chunk: seq<Byte>)
    requires 1 <= |chunk| <= 3 && i + 4 <= |s| && s[i..i + 4] == EncodeGroup(chunk)
    ensures DecodeGroup(s, i) == Ok(chunk)
  {
    var a, b, c, d := GroupDigits(chunk);
    TableInvertsChar(a);
    TableInvertsChar(b);
    TableInvertsChar(c);
    TableInvertsChar(d);
    var g := s[i..i + 4];
    assert s[i] == g[0] && s[i + 1] == g[1] && s[i + 2] == g[2] && s[i + 3] == g[3];
    assert chunk == [ByteAt(chunk, 0)] + (if |chunk| > 1 then [ByteAt(chunk, 1)] else [])
        + (if |chunk| > 2 then [ByteAt(chunk, 2)] else []);
  }

  lemma {:induction false} GroupsRoundTrip(prefix: string, data: seq<Byte>)
    ensures Groups(prefix + Encoded(data), |prefix|) == Ok(data)
    decreases |data|
  {
    if data != [] {
      var n := if |data| < 3 then |data| else 3;
      var group, s := EncodeGroup(data[..n]), prefix + Encoded(data);
      EncodedStep(data, n);
      assert s == (prefix + group) + Encoded(data[n..]);
      assert s[|prefix|..|prefix| + 4] == group;
      GroupRoundTrip(s, |prefix|, data[..n]);
      GroupsRoundTrip(prefix + group, data[n..]);
      assert data[..n] + data[n..] == data;
    }
  }

  lemma {:induction false} EncodedEnds(data: seq<Byte>)
    requires data != []
    ensures var s := Encoded(data); |s| >= 4 && s[0] != '=' && Trimmed(s)
    decreases |data|
  {
    var n := if |data| < 3 then |data| else 3;
    EncodedStep(data, n);
    GroupEnds(data[..n]);
    if n < |data| {
      EncodedEnds(data[n..]);
    }
  }

  lemma {:induction false} GroupEnds(chunk: seq<Byte>)
    ensures var g := EncodeGroup(chunk); g[0] != '=' && Trimmed(g)
  {
    var t := Triple(chunk);
    TableInvertsChar(t / 262144 % 64);
    TableInvertsChar(t % 64);
  }

  lemma {:induction false} NotAllPadding(s: string)
    requires s != "" && s[0] != '='
    ensures Padding(s) < |s|
  {
    if |s| > 1 { NotAllPadding(s[..|s| - 1]); }
  }

  /** Main theorem. The server's decoder undoes the encoder on every byte sequence. */
  lemma {:induction false} RoundTrip(data: seq<Byte>)
    ensures Decoded(Encoded(data)) == Ok(data)
  {
    var s := Encoded(data);
    if data == [] {
      assert Trim("") == "";
    } else {
      EncodedEnds(data);
      TrimIsIdentity(s);
      NotAllPadding(s);
      GroupsRoundTrip("", data);
      assert "" + s == s;
    }
  }

  // ------------------------------------------------------------ what is accepted

  predicate AllPadding(s: string) { forall i :: 0 <= i < |s| ==> s[i] == '=' }

  /** A digit, or padding in the second half of its group. */
  predicate Fits(s: string, i: nat)
    requires i < |s|
  {
    Table(s[i]) != INVALID || (s[i] == '=' && i % 4 >= 2)
  }

  /** Main theorem. The decoder takes exactly the texts that, trimmed, are nothing but padding or have complete groups
    * that begin with two digits and go on with digits or padding; it does not look at an incomplete last group.
    */
  lemma {:induction false} AcceptedExactly(input: string)
    ensures var s := Trim(input);
            Decoded(input).Ok? <==> AllPadding(s) || forall i :: 0 <= i < |s| - |s| % 4 ==> Fits(s, i)
  {
    var s := Trim(input);
    PaddingIsAll(s);
    GroupsAccepted(s, 0);
  }

  lemma {:induction false} PaddingIsAll(s: string)
    ensures Padding(s) == |s| <==> AllPadding(s)
  {
    if s != "" {
      var n := |s| - 1;
      PaddingIsAll(s[..n]);
      if s[n] == '=' && AllPadding(s[..n]) {
        forall i | 0 <= i < |s| ensures s[i] == '=' {
          assert i < n ==> s[i] == s[..n][i];
        }
      }
    }
  }

  lemma {:induction false} GroupsAccepted(s: string, from: nat)
    requires from % 4 == 0
    ensures Groups(s, from).Ok? <==> forall i :: from <= i < |s| - |s| % 4 ==> Fits(s, i)
    decreases |s| - from
  {
    if from + 4 <= |s| {
      GroupAccepted(s, from);
      GroupsAccepted(s, from + 4);
    }
  }

  lemma {:induction false} GroupAccepted(s: string, i: nat)
    requires i % 4 == 0 && i + 4 <= |s|
    ensures DecodeGroup(s, i).Ok? <==> Fits(s, i) && Fits(s, i + 1) && Fits(s, i + 2) && Fits(s, i + 3)
  {
    assert Table('=') == INVALID;
    assert (i + 1) % 4 == 1 && (i + 2) % 4 == 2 && (i + 3) % 4 == 3;
  }

  // ------------------------------------------------------------ what is canonical

  /** Text in complete groups of digits; only the last group may end in padding, and the bits it leaves unused are
    * zero.
    */
  predicate Canonical(s: string)
  {
    && |s| % 4 == 0 && (forall i :: 0 <= i < |s| ==> Table(s[i]) != INVALID || (s[i] == '=' && i >= |s| - 2))
    && (s != "" ==> CanonicalEnd(s[|s| - 4..]))
  }

  predicate CanonicalEnd(g: string)
    requires |g| == 4
  {
    && (g[2] == '=' ==> g[3] == '=' && Table(g[1]) % 16 == 0)
    && (g[2] != '=' && g[3] == '=' ==> Table(g[2]) % 4 == 0)
  }

  /** Main theorem. Encoding what was decoded gives the trimmed text back exactly when the text is canonical. */
  lemma {:induction false} ReencodesExactly(input: string)
    requires Decoded(input).Ok?
    ensures Encoded(Decoded(input).value) == Trim(input) <==> Canonical(Trim(input))
  {
    var s := Trim(input);
    if Canonical(s) {
      var data := Preimage(s);
      RoundTrip(data);
      EncodedIsTrimmed(data);
      assert Decoded(input) == Decoded(s);
    } else if Encoded(Decoded(input).value) == s {
      EncodedIsCanonical(Decoded(input).value);
    }
  }

  lemma {:induction false} EncodedIsTrimmed(data: seq<Byte>)
    ensures Trim(Encoded(data)) == Encoded(data)
  {
    if data == [] {
      assert Trim("") == "";
    } else {
      EncodedEnds(data);
      TrimIsIdentity(Encoded(data));
    }
  }

  /** Every canonical text is the encoding of some bytes. */
  lemma {:induction false} Preimage(s: string) returns (data: seq<Byte>)
    requires Canonical(s)
    ensures Encoded(data) == s
    decreases |s|
  {
    if s == "" {
      data := [];
    } else if |s| == 4 {
      data := GroupPreimage(s);
      assert s[|s| - 4..] == s;
    } else {
      CanonicalRest(s);
      var bytes := FullPreimage(s[..4]);
      var more := Preimage(s[4..]);
      data := bytes + more;
      EncodedJoin(bytes, more, s[..4], s[4..]);
      assert s[..4] + s[4..] == s;
    }
  }

  lemma {:induction false} CanonicalRest(s: string)
    requires Canonical(s) && |s| > 4
    ensures Canonical(s[4..]) && forall i :: 0 <= i < 4 ==> Table(s[..4][i]) != INVALID
  {
    var rest := s[4..];
    assert rest[|rest| - 4..] == s[|s| - 4..];
  }

  lemma {:induction false} EncodedJoin(bytes: seq<Byte>, more: seq<Byte>, g: string, rest: string)
    requires |bytes| == 3 && EncodeGroup(bytes) == g && Encoded(more) == rest
    ensures Encoded(bytes + more) == g + rest
  {
    var data := bytes + more;
    EncodedStep(data, 3);
    assert data[..3] == bytes && data[3..] == more;
  }

  /** The characters of a group, from its bytes. */
  lemma {:induction false} GroupIs(chunk: seq<Byte>, a: nat, b: nat, c: nat, d: nat)
    requires a < 64 && b < 64 && c < 64 && d < 64
    requires var b0, b1, b2 := ByteAt(chunk, 0), ByteAt(chunk, 1), ByteAt(chunk, 2);
             a == b0 / 4 && b == (b0 % 4) * 16 + b1 / 16 && c == (b1 % 16) * 4 + b2 / 64 && d == b2 % 64
    ensures EncodeGroup(chunk)
            == [Char(a), Char(b), if |chunk| > 1 then Char(c) else '=', if |chunk| > 2 then Char(d) else '=']
  {
    DigitsOf(ByteAt(chunk, 0), ByteAt(chunk, 1), ByteAt(chunk, 2));
  }

  /** The digits the decoder puts together are those the encoder takes apart. */
  lemma {:induction false} ThreeAgain(a: nat, b: nat, c: nat, d: nat)
    requires a < 64 && b < 64 && c < 64 && d < 64
    ensures EncodeGroup([First(a, b), Second(b, c), Third(c, d)]) == [Char(a), Char(b), Char(c), Char(d)]
  {
    FirstParts(a, b);
    SecondParts(b, c);
    ThirdParts(c, d);
    GroupIs([First(a, b), Second(b, c), Third(c, d)], a, b, c, d);
  }

  lemma {:induction false} OneAgain(a: nat, b: nat)
    requires a < 64 && b < 64 && b % 16 == 0
    ensures EncodeGroup([First(a, b)]) == [Char(a), Char(b), '=', '=']
  {
    FirstParts(a, b);
    GroupIs([First(a, b)], a, b, 0, 0);
  }

  lemma {:induction false} TwoAgain(a: nat, b: nat, c: nat)
    requires a < 64 && b < 64 && c < 64 && c % 4 == 0
    ensures EncodeGroup([First(a, b), Second(b, c)]) == [Char(a), Char(b), Char(c), '=']
  {
    FirstParts(a, b);
    SecondParts(b, c);
    GroupIs([First(a, b), Second(b, c)], a, b, c, 0);
  }

  lemma {:induction false} FirstParts(a: nat, b: nat)
    requires a < 64 && b < 64
    ensures First(a, b) / 4 == a && First(a, b) % 4 == b / 16
  {
    FirstIs(a, b / 16, b % 16);
  }

  lemma {:induction false} SecondParts(b: nat, c: nat)
    requires b < 64 && c < 64
    ensures Second(b, c) / 16 == b % 16 && Second(b, c) % 16 == c / 4
  {
    SecondIs(b / 16, b % 16, c / 4, c % 4);
  }

  lemma {:induction false} ThirdParts(c: nat, d: nat)
    requires c < 64 && d < 64
    ensures Third(c, d) / 64 == c % 4 && Third(c, d) % 64 == d
  {
    ThirdIs(c / 4, c % 4, d);
  }

  lemma {:induction false} CharInvertsTable(c: char)
    requires Table(c) != INVALID
    ensures Char(Table(c)) == c
  {
  }

  lemma {:induction false} FullPreimage(g: string) returns (bytes: seq<Byte>)
    requires |g| == 4 && forall i :: 0 <= i < 4 ==> Table(g[i]) != INVALID
    ensures |bytes| == 3 && EncodeGroup(bytes) == g
  {
    var a, b, c, d := Table(g[0]), Table(g[1]), Table(g[2]), Table(g[3]);
    bytes := [First(a, b), Second(b, c), Third(c, d)];
    ThreeAgain(a, b, c, d);
    CharInvertsTable(g[0]);
    CharInvertsTable(g[1]);
    CharInvertsTable(g[2]);
    CharInvertsTable(g[3]);
    assert g == [g[0], g[1], g[2], g[3]];
  }

  lemma {:induction false} GroupPreimage(g: string) returns (bytes: seq<Byte>)
    requires |g| == 4 && CanonicalEnd(g)
    requires forall i :: 0 <= i < 4 ==> Table(g[i]) != INVALID || (g[i] == '=' && i >= 2)
    ensures 1 <= |bytes| <= 3 && EncodeGroup(bytes) == g
  {
    var a, b := Table(g[0]), Table(g[1]);
    CharInvertsTable(g[0]);
    CharInvertsTable(g[1]);
    if g[2] == '=' {
      bytes := [First(a, b)];
      OneAgain(a, b);
    } else if g[3] == '=' {
      var c := Table(g[2]);
      CharInvertsTable(g[2]);
      bytes := [First(a, b), Second(b, c)];
      TwoAgain(a, b, c);
    } else {
      bytes := FullPreimage(g);
    }
    assert g == [g[0], g[1], g[2], g[3]];
  }

  /** What the encoder writes is canonical. */
  lemma {:induction false} EncodedIsCanonical(data: seq<Byte>)
    ensures Canonical(Encoded(data))
    decreases |data|
  {
    if data != [] {
      var n := if |data| < 3 then |data| else 3;
      var g, rest := EncodeGroup(data[..n]), Encoded(data[n..]);
      EncodedStep(data, n);
      EncodedGroup(data[..n]);
      if n < |data| {
        EncodedIsCanonical(data[n..]);
        EncodedEnds(data[n..]);
      }
      CanonicalJoin(g, rest);
    }
  }

  lemma {:induction false} EncodedGroup(chunk: seq<Byte>)
    requires 1 <= |chunk| <= 3
    ensures var g := EncodeGroup(chunk);
            && CanonicalEnd(g) && (forall i :: 0 <= i < 4 ==> Table(g[i]) != INVALID || (g[i] == '=' && i >= 2))
            && (|chunk| == 3 ==> g[2] != '=' && g[3] != '=')
  {
    var a, b, c, d := UnusedBits(chunk);
    TableInvertsChar(a);
    TableInvertsChar(b);
    TableInvertsChar(c);
    TableInvertsChar(d);
  }

  lemma {:induction false} UnusedBits(chunk: seq<Byte>) returns (a: nat, b: nat, c: nat, d: nat)
    ensures a < 64 && b < 64 && c < 64 && d < 64
    ensures EncodeGroup(chunk)
            == [Char(a), Char(b), if |chunk| > 1 then Char(c) else '=', if |chunk| > 2 then Char(d) else '=']
    ensures (|chunk| <= 1 ==> b % 16 == 0) && (|chunk| <= 2 ==> c % 4 == 0)
  {
    var b0, b1, b2 := ByteAt(chunk, 0), ByteAt(chunk, 1), ByteAt(chunk, 2);
    a, b, c, d := b0 / 4, (b0 % 4) * 16 + b1 / 16, (b1 % 16) * 4 + b2 / 64, b2 % 64;
    GroupIs(chunk, a, b, c, d);
    LowBitsClear(b0 % 4, b1 % 16);
  }

  lemma {:induction false} LowBitsClear(x: nat, y: nat)
    ensures (x * 16 + 0 / 16) % 16 == 0 && (y * 4 + 0 / 64) % 4 == 0
  {
  }

  lemma {:induction false} CanonicalJoin(g: string, rest: string)
    requires |g| == 4 && CanonicalEnd(g) && Canonical(rest)
    requires forall i :: 0 <= i < 4 ==> Table(g[i]) != INVALID || (g[i] == '=' && i >= 2)
    requires rest != "" ==> g[2] != '=' && g[3] != '='
    ensures Canonical(g + rest)
  {
    var s := g + rest;
    if rest == "" {
      assert s == g && s[|s| - 4..] == g;
    } else {
      assert s[|s| - 4..] == rest[|rest| - 4..];
      forall i | 0 <= i < |s| ensures Table(s[i]) != INVALID || (s[i] == '=' && i >= |s| - 2) {
        assert i < 4 || s[i] == rest[i - 4];
      }
    }
  }
}
