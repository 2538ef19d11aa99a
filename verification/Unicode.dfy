/** Unicode text as bytes (section 3 of RFC 3629), against which the byte-wise tests of the request parser are
  * measured.
  */
module Unicode {
  import opened Common
  import opened Http
  import opened HttpParse
  import opened Text

  /** A Unicode scalar value: a code point that is not a surrogate. */
  predicate IsScalar(c: nat) { c <= 0x10FFFF && !(0xD800 <= c <= 0xDFFF) }

  /** A byte that goes on with a character: 10xxxxxx. */
  function Tail(x: nat): (b: char)
    requires x < 64
  {
    (0x80 + x) as char
  }

  function Encode(c: nat): (b: Bytes)
    requires IsScalar(c)
    ensures 1 <= |b| <= 4
  {
    if c < 0x80 then [c as char]
    else if c < 0x800 then [(0xC0 + c / 64) as char, Tail(c % 64)]
    else if c < 0x1_0000 then [(0xE0 + c / 4096) as char, Tail(c / 64 % 64), Tail(c % 64)]
    else [(0xF0 + c / 262144) as char, Tail(c / 4096 % 64), Tail(c / 64 % 64), Tail(c % 64)]
  }

  predicate AllScalars(cs: seq<nat>) { forall i :: 0 <= i < |cs| ==> IsScalar(cs[i]) }

  function EncodeAll(cs: seq<nat>): (b: Bytes)
    requires AllScalars(cs)
  {
    if cs == [] then "" else Encode(cs[0]) + EncodeAll(cs[1..])
  }

  // ------------------------------------------------------------ digits to the base 64

  lemma {:induction false} TwoDigits(c: nat, hi: nat, lo: nat)
    requires lo < 64
    ensures c == 64 * hi + lo <==> c / 64 == hi && c % 64 == lo
  {
  }

  lemma {:induction false} ThreeDigits(c: nat, hi: nat, mid: nat, lo: nat)
    requires mid < 64 && lo < 64
    ensures c == 4096 * hi + 64 * mid + lo <==> c / 4096 == hi && c / 64 % 64 == mid && c % 64 == lo
  {
    TwoDigits(c, 64 * hi + mid, lo);
    TwoDigits(c / 64, hi, mid);
    assert c / 64 / 64 == c / 4096;
  }

  lemma {:induction false} FourDigits(c: nat, top: nat, hi: nat, mid: nat, lo: nat)
    requires hi < 64 && mid < 64 && lo < 64
    ensures c == 262144 * top + 4096 * hi + 64 * mid + lo
       <==> c / 262144 == top && c / 4096 % 64 == hi && c / 64 % 64 == mid && c % 64 == lo
  {
    ThreeDigits(c, 64 * top + hi, mid, lo);
    TwoDigits(c / 4096, top, hi);
    assert c / 4096 / 64 == c / 262144;
  }

  // ------------------------------------------------------------ what is UTF-8

  lemma {:induction false} EncodedWidth(c: nat, rest: Bytes)
    requires IsScalar(c)
    ensures Utf8Width(Encode(c) + rest) == |Encode(c)|
  {
    var b := Encode(c) + rest;
    if c < 0x80 {
      assert b[0] == c as char;
    } else if c < 0x800 {
      TwoDigits(c, c / 64, c % 64);
      assert b[0] == (0xC0 + c / 64) as char && b[1] == Tail(c % 64);
    } else if c < 0x1_0000 {
      EncodedWidth3(c, c / 4096, c / 64 % 64, c % 64, b);
    } else {
      EncodedWidth4(c, c / 262144, c / 4096 % 64, c / 64 % 64, c % 64, b);
    }
  }

  lemma {:induction false} EncodedWidth3(c: nat, hi: nat, mid: nat, lo: nat, b: Bytes)
    requires IsScalar(c) && 0x800 <= c < 0x1_0000 && hi == c / 4096 && mid == c / 64 % 64 && lo == c % 64
    requires |b| >= 3 && b[0] == (0xE0 + hi) as char && b[1] == Tail(mid) && b[2] == Tail(lo)
    ensures Utf8Width(b) == 3
  {
    ThreeDigits(c, hi, mid, lo);
  }

  lemma {:induction false} EncodedWidth4(c: nat, top: nat, hi: nat, mid: nat, lo: nat, b: Bytes)
    requires 0x1_0000 <= c <= 0x10FFFF && top == c / 262144 && hi == c / 4096 % 64 && mid == c / 64 % 64 && lo == c % 64
    requires |b| >= 4 && b[0] == (0xF0 + top) as char && b[1] == Tail(hi) && b[2] == Tail(mid) && b[3] == Tail(lo)
    ensures Utf8Width(b) == 4
  {
    FourDigits(c, top, hi, mid, lo);
  }

  /** The character at the start of a byte string. */
  lemma {:induction false} Decoded(b: Bytes) returns (c: nat)
    requires b != "" && Utf8Width(b) > 0
    ensures IsScalar(c) && Encode(c) == b[..Utf8Width(b)]
  {
    var w := Utf8Width(b);
    if w == 1 {
      c := b[0] as nat;
    } else if w == 2 {
      c := 64 * (b[0] as nat - 0xC0) + (b[1] as nat - 0x80);
      TwoDigits(c, b[0] as nat - 0xC0, b[1] as nat - 0x80);
    } else if w == 3 {
      c := Decoded3(b[0] as nat - 0xE0, b[1] as nat - 0x80, b[2] as nat - 0x80, b);
    } else {
      c := Decoded4(b[0] as nat - 0xF0, b[1] as nat - 0x80, b[2] as nat - 0x80, b[3] as nat - 0x80, b);
    }
  }

  lemma {:induction false} Decoded3(hi: nat, mid: nat, lo: nat, b: Bytes) returns (c: nat)
    requires b != "" && Utf8Width(b) == 3 && b[0] as nat == 0xE0 + hi && b[1] as nat == 0x80 + mid
    requires b[2] as nat == 0x80 + lo
    ensures IsScalar(c) && Encode(c) == b[..3]
  {
    c := 4096 * hi + 64 * mid + lo;
    ThreeDigits(c, hi, mid, lo);
  }

  lemma {:induction false} Decoded4(top: nat, hi: nat, mid: nat, lo: nat, b: Bytes) returns (c: nat)
    requires b != "" && Utf8Width(b) == 4 && b[0] as nat == 0xF0 + top && b[1] as nat == 0x80 + hi
    requires b[2] as nat == 0x80 + mid && b[3] as nat == 0x80 + lo
    ensures IsScalar(c) && Encode(c) == b[..4]
  {
    c := 262144 * top + 4096 * hi + 64 * mid + lo;
    FourDigits(c, top, hi, mid, lo);
  }

  lemma {:induction false} EncodedIsUtf8(cs: seq<nat>)
    requires AllScalars(cs)
    ensures Utf8(EncodeAll(cs))
  {
    if cs != [] {
      var first, rest := Encode(cs[0]), EncodeAll(cs[1..]);
      EncodedIsUtf8(cs[1..]);
      EncodedWidth(cs[0], rest);
      assert (first + rest)[|first|..] == rest;
    }
  }

  lemma {:induction false} Utf8IsEncoded(b: Bytes) returns (cs: seq<nat>)
    requires Utf8(b)
    ensures AllScalars(cs) && EncodeAll(cs) == b
    decreases |b|
  {
    cs := [];
    if b != "" {
      var w := Utf8Width(b);
      var c := Decoded(b);
      var more := Utf8IsEncoded(b[w..]);
      cs := [c] + more;
      assert cs[1..] == more && b == b[..w] + b[w..];
    }
  }

  /** Main theorem. The parser's byte-wise test takes exactly the encodings of Unicode text: no overlong form, no
    * surrogate, nothing above U+10FFFF.
    */
  lemma {:induction false} Utf8Exactly(b: Bytes)
    ensures Utf8(b) <==> exists cs: seq<nat> :: AllScalars(cs) && EncodeAll(cs) == b
  {
    if Utf8(b) {
      var cs := Utf8IsEncoded(b);
    } else {
      forall cs: seq<nat> | AllScalars(cs) ensures EncodeAll(cs) != b {
        EncodedIsUtf8(cs);
      }
    }
  }

  // ------------------------------------------------------------ what is white space

  /** The characters with the property White_Space. */
  predicate IsWhite(c: nat)
  {
    || 0x9 <= c <= 0xD || c == 0x20 || c == 0x85 || c == 0xA0 || c == 0x1680 || 0x2000 <= c <= 0x200A
    || c == 0x2028 || c == 0x2029 || c == 0x202F || c == 0x205F || c == 0x3000
  }

  /** Trimming takes a character away at either end exactly when it is white space. */
  lemma {:induction false} WhiteExactly(c: nat, text: Bytes)
    requires IsScalar(c)
    ensures SpaceAtStart(Encode(c) + text) == if IsWhite(c) then |Encode(c)| else 0
    ensures SpaceAtEnd(text + Encode(c)) == if IsWhite(c) then |Encode(c)| else 0
  {
    var e := Encode(c);
    var a, z := e + text, text + e;
    assert forall i :: 0 <= i < |e| ==> a[i] == e[i] && z[|text| + i] == e[i];
    if c < 0x80 {
      assert z[|z| - 1] == e[0];
    } else if c < 0x800 {
      TwoDigits(c, c / 64, c % 64);
      White2(c, c / 64, c % 64, a, z);
    } else if c < 0x1_0000 {
      White3(c, c / 4096, c / 64 % 64, c % 64, a, z);
    } else {
      White4(c, a, z);
    }
  }

  lemma {:induction false} White2(c: nat, hi: nat, lo: nat, a: Bytes, z: Bytes)
    requires 0x80 <= c < 0x800 && c == 64 * hi + lo && lo < 64 && |a| >= 2 && |z| >= 2
    requires a[0] == z[|z| - 2] == (0xC0 + hi) as char && a[1] == z[|z| - 1] == Tail(lo)
    ensures SpaceAtStart(a) == SpaceAtEnd(z) == if IsWhite(c) then 2 else 0
  {
  }

  lemma {:induction false} White3(c: nat, hi: nat, mid: nat, lo: nat, a: Bytes, z: Bytes)
    requires 0x800 <= c < 0x1_0000 && hi == c / 4096 && mid == c / 64 % 64 && lo == c % 64 && |a| >= 3 && |z| >= 3
    requires a[0] == z[|z| - 3] == (0xE0 + hi) as char && a[1] == z[|z| - 2] == Tail(mid)
    requires a[2] == z[|z| - 1] == Tail(lo)
    ensures SpaceAtStart(a) == SpaceAtEnd(z) == if IsWhite(c) then 3 else 0
  {
    ThreeDigits(c, hi, mid, lo);
    assert Space3(a[0], a[1], a[2]) <==> IsWhite(c);
  }

  lemma {:induction false} White4(c: nat, a: Bytes, z: Bytes)
    requires 0x1_0000 <= c <= 0x10FFFF && |a| >= 4 && |z| >= 4
    requires a[0] == z[|z| - 4] == (0xF0 + c / 262144) as char && a[1] == z[|z| - 3] == Tail(c / 4096 % 64)
    requires a[2] == z[|z| - 2] == Tail(c / 64 % 64) && a[3] == z[|z| - 1] == Tail(c % 64)
    ensures SpaceAtStart(a) == SpaceAtEnd(z) == 0
  {
  }
}
