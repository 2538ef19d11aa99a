/** String operations shared by the parsers. A string stands for bytes, one char per byte; text is UTF-8. */
module Text {

  predicate Between(c: char, lo: nat, hi: nat) { lo <= c as int <= hi }

  /** ASCII white space. */
  predicate IsSpace(c: char) { c == ' ' || Between(c, 9, 13) }

  /** An ASCII character that is not white space. */
  predicate Visible(c: char) { Between(c, 0, 0x7F) && !IsSpace(c) }

  /** The two-byte white-space characters: U+0085 and U+00A0. */
  predicate Space2(b0: char, b1: char)
  {
    Between(b0, 0xC2, 0xC2) && (Between(b1, 0x85, 0x85) || Between(b1, 0xA0, 0xA0))
  }

  /** The three-byte ones: U+1680, U+2000 to U+200A, U+2028, U+2029, U+202F, U+205F and U+3000. */
  predicate Space3(b0: char, b1: char, b2: char)
  {
    || (Between(b0, 0xE1, 0xE1) && Between(b1, 0x9A, 0x9A) && Between(b2, 0x80, 0x80))
    || (Between(b0, 0xE2, 0xE2) && Between(b1, 0x80, 0x80)
        && (Between(b2, 0x80, 0x8A) || Between(b2, 0xA8, 0xA9) || Between(b2, 0xAF, 0xAF)))
    || (Between(b0, 0xE2, 0xE2) && Between(b1, 0x81, 0x81) && Between(b2, 0x9F, 0x9F))
    || (Between(b0, 0xE3, 0xE3) && Between(b1, 0x80, 0x80) && Between(b2, 0x80, 0x80))
  }

  /** Length of the white-space character `s` starts with; 0 if it starts with none. */
  function SpaceAtStart(s: string): (w: nat)
    ensures w <= |s|
  {
    if s == "" then 0
    else if IsSpace(s[0]) then 1
    else if |s| >= 2 && Space2(s[0], s[1]) then 2
    else if |s| >= 3 && Space3(s[0], s[1], s[2]) then 3
    else 0
  }

  function SpaceAtEnd(s: string): (w: nat)
    ensures w <= |s|
  {
    var n := |s|;
    if n == 0 then 0
    else if IsSpace(s[n - 1]) then 1
    else if n >= 2 && Space2(s[n - 2], s[n - 1]) then 2
    else if n >= 3 && Space3(s[n - 3], s[n - 2], s[n - 1]) then 3
    else 0
  }

  function TrimStart(s: string): (t: string)
    decreases |s|
  {
    if SpaceAtStart(s) > 0 then TrimStart(s[SpaceAtStart(s)..]) else s
  }

  function TrimEnd(s: string): (t: string)
    decreases |s|
  {
    if SpaceAtEnd(s) > 0 then TrimEnd(s[..|s| - SpaceAtEnd(s)]) else s
  }

  /** `str::trim`. */
  function Trim(s: string): (t: string) { TrimEnd(TrimStart(s)) }

  /** Text that starts and ends with a visible ASCII character. */
  predicate Trimmed(s: string) { s != "" && Visible(s[0]) && Visible(s[|s| - 1]) }

  /** Index of the first `c` in `s`, or its length. */
  function IndexOf(s: string, c: char): (k: nat)
    ensures k <= |s| && (k < |s| ==> s[k] == c) && forall i :: 0 <= i < k ==> s[i] != c
  {
    if s == "" || s[0] == c then 0 else 1 + IndexOf(s[1..], c)
  }

  lemma {:induction false} TrimIsIdentity(s: string)
    requires Trimmed(s)
    ensures Trim(s) == s
  {
    assert SpaceAtStart(s) == 0 && SpaceAtEnd(s) == 0;
  }

  lemma {:induction false} TrimDropsSpace(s: string)
    requires Trimmed(s)
    ensures Trim(" " + s) == s
  {
    TrimDropsFirst(' ', s);
  }

  lemma {:induction false} TrimDropsFirst(c: char, s: string)
    requires IsSpace(c) && Trimmed(s)
    ensures Trim([c] + s) == s
  {
    var t := [c] + s;
    assert SpaceAtStart(t) == 1 && t[1..] == s;
    TrimIsIdentity(s);
  }

  lemma {:induction false} TrimDropsLast(s: string, c: char)
    requires IsSpace(c) && Trimmed(s)
    ensures Trim(s + [c]) == s
  {
    var t := s + [c];
    assert SpaceAtStart(t) == 0 && SpaceAtEnd(t) == 1 && t[..|t| - 1] == s;
    TrimIsIdentity(s);
  }

  lemma {:induction false} IndexOfIs(s: string, c: char, k: nat)
    requires k < |s| && s[k] == c && forall i :: 0 <= i < k ==> s[i] != c
    ensures IndexOf(s, c) == k
  {
  }
}
