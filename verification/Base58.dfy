/** The base-58 decoder for keypair strings (quic/src/tls.rs). */
module Base58 {
  import opened Common
  import opened Text

  const NUMERALS: string := "123456789"
  const UPPER: string := "ABCDEFGH" + "JKLMN" + "PQRSTUVWXYZ"
  const LOWER: string := "abcdefghijk" + "mnopqrstuvwxyz"
  const ALPHABET: string := NUMERALS + UPPER + LOWER

  datatype Result<T> = Ok(value: T) | Err

  /** x * 256^n. */
  function Scale(x: nat, n: nat): (v: nat) { if n == 0 then x else 256 * Scale(x, n - 1) }

  function Pow58(n: nat): (p: nat)
    ensures p > 0
  {
    if n == 0 then 1 else 58 * Pow58(n - 1)
  }

  /** Position of `c` in the alphabet, 58 if it is not there. */
  function Digit(c: char): (d: nat)
    ensures d <= 58
  {
    IndexOf(ALPHABET, c)
  }

  /** The digit of a character by its range: no zero, no capital I and O, no small l. */
  function RangeDigit(c: char): (d: nat)
  {
    if '1' <= c <= '9' then (c - '1') as int
    else if 'A' <= c <= 'H' then 9 + (c - 'A') as int
    else if 'J' <= c <= 'N' then 17 + (c - 'J') as int
    else if 'P' <= c <= 'Z' then 22 + (c - 'P') as int
    else if 'a' <= c <= 'k' then 33 + (c - 'a') as int
    else if 'm' <= c <= 'z' then 44 + (c - 'm') as int
    else 58
  }

  /** The digits run through the numerals, the capitals and the small letters, leaving out the four look-alikes. */
  lemma {:induction false} DigitExact(c: char)
    ensures Digit(c) == RangeDigit(c)
  {
    var d := RangeDigit(c);
    forall i: nat | i < 58 ensures RangeDigit(ALPHABET[i]) == i {
      AlphabetAt(i);
    }
    if d < 58 {
      SameDigit(c, ALPHABET[d]);
      IndexOfIs(ALPHABET, c, d);
    }
  }

  lemma {:induction false} SameDigit(a: char, b: char)
    requires RangeDigit(a) == RangeDigit(b) < 58
    ensures a == b
  {
  }

  lemma {:induction false} AlphabetAt(i: nat)
    requires i < 58
    ensures |ALPHABET| == 58 && RangeDigit(ALPHABET[i]) == i
  {
    if i < 9 {
      NumeralAt(i);
    } else if i < 33 {
      UpperAt(i - 9);
    } else {
      LowerAt(i - 33);
    }
  }

  lemma {:induction false} NumeralAt(i: nat)
    requires i < 9
    ensures RangeDigit(NUMERALS[i]) == i
  {
  }

  lemma {:induction false} UpperAt(i: nat)
    requires i < 24
    ensures RangeDigit(UPPER[i]) == 9 + i
  {
    var a, b, c := "ABCDEFGH", "JKLMN", "PQRSTUVWXYZ";
    if i < 8 {
      assert UPPER[i] == a[i];
    } else if i < 13 {
      assert UPPER[i] == b[i - 8];
    } else {
      assert UPPER[i] == c[i - 13];
    }
  }

  lemma {:induction false} LowerAt(i: nat)
    requires i < 25
    ensures RangeDigit(LOWER[i]) == 33 + i
  {
    var a, b := "abcdefghijk", "mnopqrstuvwxyz";
    if i < 11 {
      assert LOWER[i] == a[i];
    } else {
      assert LOWER[i] == b[i - 11];
    }
  }

  predicate Valid(s: string) { forall i :: 0 <= i < |s| ==> Digit(s[i]) < 58 }

  /** The number a base-58 string stands for, most significant digit first. */
  function Value58(s: string): (v: nat)
  {
    if s == "" then 0 else Value58(s[..|s| - 1]) * 58 + Digit(s[|s| - 1])
  }

  /** The number a byte string stands for, most significant byte first. */
  function BigEndian(b: seq<Byte>): (v: nat)
  {
    if b == [] then 0 else BigEndian(b[..|b| - 1]) * 256 + b[|b| - 1]
  }

  /** Least significant byte first. */
  function LittleEndian(b: seq<Byte>): (v: nat)
  {
    if b == [] then 0 else LittleEndian(b[..|b| - 1]) + Scale(b[|b| - 1], |b| - 1)
  }

  function LeadingOnes(s: string): (n: nat)
    ensures n <= |s| && (forall i :: 0 <= i < n ==> s[i] == '1') && (n < |s| ==> s[n] != '1')
  {
    if s == "" || s[0] != '1' then 0 else 1 + LeadingOnes(s[1..])
  }

  function LeadingZeros(b: seq<Byte>): (n: nat)
    ensures n <= |b| && (forall i :: 0 <= i < n ==> b[i] == 0) && (n < |b| ==> b[n] != 0)
  {
    if b == [] || b[0] != 0 then 0 else 1 + LeadingZeros(b[1..])
  }

  function Reversed(b: seq<Byte>): (r: seq<Byte>)
    ensures |r| == |b| && forall i :: 0 <= i < |b| ==> r[i] == b[|b| - 1 - i]
  {
    seq(|b|, i requires 0 <= i < |b| => b[|b| - 1 - i])
  }

  // ------------------------------------------------------------ arithmetic

  lemma {:induction false} ScaleSum(x: nat, y: nat, n: nat)
    ensures Scale(x + y, n) == Scale(x, n) + Scale(y, n)
  {
    if n > 0 { ScaleSum(x, y, n - 1); }
  }

  lemma {:induction false} ScaleBy58(x: nat, n: nat)
    ensures Scale(58 * x, n) == 58 * Scale(x, n)
  {
    if n > 0 { ScaleBy58(x, n - 1); }
  }

  lemma {:induction false} ScaleBy256(x: nat, n: nat)
    ensures Scale(256 * x, n) == Scale(x, n + 1)
  {
    if n > 0 { ScaleBy256(x, n - 1); }
  }

  lemma {:induction false} ScaleOrder(x: nat, y: nat, n: nat)
    requires x <= y
    ensures Scale(x, n) <= Scale(y, n)
  {
    if n > 0 { ScaleOrder(x, y, n - 1); }
  }

  /** One step of the carry loop, on the byte `b` at position `n`. */
  lemma {:induction false} CarryStep(low: nat, carry: nat, n: nat, before: nat, digit: nat, b: nat)
    requires low + Scale(carry, n) == 58 * before + digit
    ensures var val := carry + b * 58;
            low + Scale(val % 256, n) + Scale(val / 256, n + 1) == 58 * (before + Scale(b, n)) + digit
  {
    var val := carry + b * 58;
    ScaleSum(val % 256, 256 * (val / 256), n);
    ScaleBy256(val / 256, n);
    ScaleSum(carry, 58 * b, n);
    ScaleBy58(b, n);
  }

  lemma {:induction false} LittleAppend(b: seq<Byte>, x: Byte)
    ensures LittleEndian(b + [x]) == LittleEndian(b) + Scale(x, |b|)
  {
    assert (b + [x])[..|b|] == b;
  }

  /** A number whose highest byte is not zero is at least that power of 256. */
  lemma {:induction false} TopByte(b: seq<Byte>)
    requires b != [] && b[|b| - 1] != 0
    ensures LittleEndian(b) >= Scale(1, |b| - 1)
  {
    ScaleOrder(1, b[|b| - 1], |b| - 1);
  }

  lemma {:induction false} PowerOrder(n: nat, m: nat)
    requires Scale(1, n) < Pow58(m)
    ensures n < m
  {
    if m <= n {
      PowerAtMost(m, n);
      assert false;
    }
  }

  lemma {:induction false} PowerAtMost(m: nat, n: nat)
    requires m <= n
    ensures Pow58(m) <= Scale(1, n)
  {
    if m > 0 {
      PowerAtMost(m - 1, n - 1);
    } else if n > 0 {
      PowerAtMost(0, n - 1);
    }
  }

  lemma {:induction false} OneIsZero(c: char)
    ensures Digit(c) == 0 <==> c == '1'
  {
    assert ALPHABET[0] == '1';
  }

  /** Leading ones add nothing; the rest is bounded by its length. */
  lemma {:induction false} ValueBound(s: string, ones: nat)
    requires Valid(s) && ones <= |s| && forall i :: 0 <= i < ones ==> s[i] == '1'
    ensures Value58(s) < Pow58(|s| - ones)
  {
    if s != "" {
      var rest := s[..|s| - 1];
      if ones == |s| {
        ValueBound(rest, ones - 1);
        OneIsZero(s[|s| - 1]);
      } else {
        ValueBound(rest, ones);
        assert Digit(s[|s| - 1]) < 58;
      }
    }
  }

  lemma {:induction false} ReversedValue(b: seq<Byte>)
    ensures BigEndian(Reversed(b)) == LittleEndian(b)
  {
    if b != [] {
      var x, rest := b[|b| - 1], b[..|b| - 1];
      ReversedValue(rest);
      assert Reversed(b) == [x] + Reversed(rest);
      BigPrepend(x, Reversed(rest));
    }
  }

  lemma {:induction false} BigPrepend(x: Byte, b: seq<Byte>)
    ensures BigEndian([x] + b) == Scale(x, |b|) + BigEndian(b)
  {
    var all := [x] + b;
    if b == [] {
      assert all[..0] == [];
    } else {
      assert all[..|all| - 1] == [x] + b[..|b| - 1];
      BigPrepend(x, b[..|b| - 1]);
    }
  }

  lemma {:induction false} ScaleZero(n: nat)
    ensures Scale(0, n) == 0
  {
    if n > 0 { ScaleZero(n - 1); }
  }

  lemma {:induction false} ZerosAppended(b: seq<Byte>, all: seq<Byte>)
    requires |b| <= |all| && all[..|b|] == b && forall i :: |b| <= i < |all| ==> all[i] == 0
    ensures LittleEndian(all) == LittleEndian(b)
    decreases |all|
  {
    if |all| == |b| {
      assert all == b;
    } else {
      var rest := all[..|all| - 1];
      assert rest[..|b|] == b;
      ZerosAppended(b, rest);
      ScaleZero(|all| - 1);
    }
  }

  // ------------------------------------------------------------ the decoder

  /** The bytes hold the value of the characters read so far, without zero bytes on top. */
  ghost predicate Holds(digits: seq<Byte>, s: string)
  {
    LittleEndian(digits) == Value58(s) && (digits != [] ==> digits[|digits| - 1] != 0)
  }

  /** Without zero bytes on top the bytes fit beside the leading ones. */
  lemma {:induction false} Fits(digits: seq<Byte>, s: string, ones: nat)
    requires Valid(s) && Holds(digits, s) && ones <= |s| && forall i :: 0 <= i < ones ==> s[i] == '1'
    ensures |digits| + ones <= |s|
  {
    ValueBound(s, ones);
    if digits != [] {
      TopByte(digits);
      PowerOrder(|digits| - 1, |s| - ones);
    }
  }

  /** A carry left over means that one more byte still fits. */
  lemma {:induction false} CarryFits(digits: seq<Byte>, carry: nat, s: string, ones: nat)
    requires Valid(s) && carry > 0 && LittleEndian(digits) + Scale(carry, |digits|) == Value58(s)
    requires ones <= |s| && forall i :: 0 <= i < ones ==> s[i] == '1'
    ensures |digits| + ones < |s|
  {
    ValueBound(s, ones);
    ScaleOrder(1, carry, |digits|);
    PowerOrder(|digits|, |s| - ones);
  }

  /** The inner loop: multiplies the number in `buf[..len]` by 58 and adds `digit`. What carries out of the top
    * stays below 58.
    */
  method MultiplyAdd(buf: array<Byte>, len: nat, digit: nat) returns (carry: nat)
    requires len <= buf.Length && digit < 58
    modifies buf
    ensures carry < 58 && LittleEndian(buf[..len]) + Scale(carry, len) == 58 * LittleEndian(old(buf[..len])) + digit
    ensures buf[len..] == old(buf[len..])
    ensures len > 0 && carry == 0 && old(buf[len - 1]) != 0 ==> buf[len - 1] != 0
  {
    carry := digit;
    ghost var before := buf[..];
    for i := 0 to len
      invariant carry < 58 && buf[i..] == before[i..]
      invariant LittleEndian(buf[..i]) + Scale(carry, i) == 58 * LittleEndian(before[..i]) + digit
      invariant i > 0 && carry == 0 && before[i - 1] != 0 ==> buf[i - 1] != 0
    {
      ghost var low := buf[..i];
      assert buf[i] == before[i..][0] == before[i];
      CarryStep(LittleEndian(low), carry, i, LittleEndian(before[..i]), digit, before[i]);
      var byte: nat := buf[i];
      carry := carry + byte * 58;
      buf[i] := carry % 256;
      carry := carry / 256;
      assert buf[..i + 1] == low + [buf[i]] && before[..i + 1] == before[..i] + [before[i]];
      LittleAppend(low, buf[i]);
      LittleAppend(before[..i], before[i]);
    }
  }

  /** One character: multiply, then push what is left of the carry. */
  method PushDigit(buf: array<Byte>, len: nat, ghost s: string, c: char) returns (len': nat)
    requires |s| < buf.Length && len <= |s| && Valid(s + [c]) && Holds(buf[..len], s)
    modifies buf
    ensures len' <= |s| + 1 && Holds(buf[..len'], s + [c])
  {
    ghost var longer := s + [c];
    assert longer[..|s|] == s && longer[|s|] == c;
    assert len > 0 ==> buf[..len][len - 1] == buf[len - 1];
    var val: nat := MultiplyAdd(buf, len, Digit(c));
    assert len > 0 ==> buf[..len][len - 1] == buf[len - 1];
    ScaleZero(len);
    len' := PushCarry(buf, len, val, longer);
  }

  /** What is left of the carry becomes one more byte, if anything is left. */
  method PushCarry(buf: array<Byte>, len: nat, carry: nat, ghost s: string) returns (len': nat)
    requires len <= |s| <= buf.Length && carry < 58 && Valid(s)
    requires LittleEndian(buf[..len]) + Scale(carry, len) == Value58(s) && (carry == 0 ==> Holds(buf[..len], s))
    modifies buf
    ensures len' <= |s| && Holds(buf[..len'], s)
  {
    len' := len;
    var val := carry;
    while val > 0
      invariant val < 58 && len <= len' <= len + 1 && len' <= |s| && (len' == len + 1 ==> val == 0)
      invariant len' == len ==> val == carry && LittleEndian(buf[..len]) + Scale(val, len) == Value58(s)
      invariant val == 0 ==> Holds(buf[..len'], s)
      decreases val
    {
      CarryFits(buf[..len'], val, s, 0);
      ghost var low := buf[..len'];
      buf[len'] := val % 256;
      assert buf[..len' + 1] == low + [buf[len']];
      LittleAppend(low, buf[len']);
      len' := len' + 1;
      val := val / 256;
    }
  }

  /** Main theorem. Decoding fails exactly on characters outside the alphabet. Otherwise the bytes stand for the
    * same number, with one leading zero byte for each leading '1'. The buffer of the input's length suffices.
    */
  method Decode(s: string) returns (r: Result<seq<Byte>>)
    ensures r.Ok? <==> Valid(s)
    ensures r.Ok? ==> BigEndian(r.value) == Value58(s) && LeadingZeros(r.value) == LeadingOnes(s)
  {
    var buf := new Byte[|s|](i => 0);
    var valid, len := ReadDigits(buf, s);
    if !valid {
      return Err;
    }
    ghost var digits, n := buf[..len], len;
    Fits(digits, s, LeadingOnes(s));
    len := AppendZeros(buf, len, s);
    assert buf[..len] == digits + buf[n..len];
    Finished(digits, buf[n..len]);
    return Ok(Reversed(buf[..len]));
  }

  /** The last loop: a zero byte for every leading '1'. */
  method AppendZeros(buf: array<Byte>, len: nat, s: string) returns (len': nat)
    requires len + LeadingOnes(s) <= buf.Length
    modifies buf
    ensures len' == len + LeadingOnes(s) && buf[..len] == old(buf[..len]) && forall i :: len <= i < len' ==> buf[i] == 0
  {
    len' := len;
    var j := 0;
    while j < |s| && s[j] == '1'
      invariant j <= LeadingOnes(s) && len' == len + j
      invariant buf[..len] == old(buf[..len]) && forall i :: len <= i < len' ==> buf[i] == 0
    {
      buf[len'] := 0;
      len' := len' + 1;
      j := j + 1;
    }
  }

  /** The outer loop, over the characters. */
  method ReadDigits(buf: array<Byte>, s: string) returns (valid: bool, len: nat)
    requires buf.Length == |s|
    modifies buf
    ensures valid <==> Valid(s)
    ensures valid ==> len <= |s| && Holds(buf[..len], s)
  {
    len := 0;
    assert buf[..0] == [];
    for k := 0 to |s|
      invariant len <= k && Valid(s[..k]) && Holds(buf[..len], s[..k])
    {
      if Digit(s[k]) == 58 {
        return false, len;
      }
      assert s[..k + 1] == s[..k] + [s[k]];
      len := PushDigit(buf, len, s[..k], s[k]);
    }
    assert s[..|s|] == s;
    valid := true;
  }

  lemma {:induction false} Finished(digits: seq<Byte>, zeros: seq<Byte>)
    requires (digits != [] ==> digits[|digits| - 1] != 0) && forall i :: 0 <= i < |zeros| ==> zeros[i] == 0
    ensures BigEndian(Reversed(digits + zeros)) == LittleEndian(digits)
            && LeadingZeros(Reversed(digits + zeros)) == |zeros|
  {
    ReversedValue(digits + zeros);
    ZerosAppended(digits, digits + zeros);
    var r := Reversed(digits + zeros);
    assert forall i :: 0 <= i < |zeros| ==> r[i] == 0;
    assert digits != [] ==> r[|zeros|] == digits[|digits| - 1];
    LeadingZerosIs(r, |zeros|);
  }

  lemma {:induction false} LeadingZerosIs(b: seq<Byte>, n: nat)
    requires n <= |b| && (forall i :: 0 <= i < n ==> b[i] == 0) && (n < |b| ==> b[n] != 0)
    ensures LeadingZeros(b) == n
  {
    var m := LeadingZeros(b);
    assert m < |b| ==> b[m] != 0;
  }

  /** The value and the number of leading zeros determine the bytes, so the contract leaves no choice. */
  lemma {:induction false} BytesDetermined(a: seq<Byte>, b: seq<Byte>)
    requires BigEndian(a) == BigEndian(b) && LeadingZeros(a) == LeadingZeros(b)
    ensures a == b
    decreases |a|
  {
    if LeadingZeros(a) > 0 {
      assert a == [0] + a[1..] && b == [0] + b[1..];
      BigPrepend(0, a[1..]);
      BigPrepend(0, b[1..]);
      ScaleZero(|a| - 1);
      ScaleZero(|b| - 1);
      BytesDetermined(a[1..], b[1..]);
    } else {
      BigInjective(a, b);
    }
  }

  lemma {:induction false} BigPositive(b: seq<Byte>)
    requires b != [] && b[0] != 0
    ensures BigEndian(b) > 0
  {
    if |b| > 1 {
      BigPositive(b[..|b| - 1]);
    }
  }

  lemma {:induction false} BigInjective(a: seq<Byte>, b: seq<Byte>)
    requires (a != [] ==> a[0] != 0) && (b != [] ==> b[0] != 0) && BigEndian(a) == BigEndian(b)
    ensures a == b
  {
    if a == [] {
      if b != [] { BigPositive(b); }
    } else if b == [] {
      BigPositive(a);
    } else {
      BigInjective(a[..|a| - 1], b[..|b| - 1]);
      assert a == a[..|a| - 1] + [a[|a| - 1]] && b == b[..|b| - 1] + [b[|b| - 1]];
    }
  }
}
