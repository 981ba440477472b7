/** Bytes and the ASCII classes that the firmware's text code tests for. */
module Ascii {
  import opened Machine

  const NL: byte := 10
  const SPACE: byte := 32
  const TAB: byte := 9
  const SQUOTE: byte := 39
  const DQUOTE: byte := 34

  predicate IsBlank(c: byte) { c == SPACE || c == TAB }

  predicate IsDigit(c: byte) { 48 <= c <= 57 }

  predicate IsUpper(c: byte) { 65 <= c <= 90 }

  predicate IsLower(c: byte) { 97 <= c <= 122 }

  predicate NoNewline(s: seq<byte>) { forall i :: 0 <= i < |s| ==> s[i] != NL }

  /** Only digits and blanks. */
  predicate Plain(s: seq<byte>) { forall i :: 0 <= i < |s| ==> IsBlank(s[i]) || IsDigit(s[i]) }

  /** The suffix of s that starts at its first byte that is neither space nor tab. */
  function SkipBlanks(s: seq<byte>): (r: seq<byte>)
    ensures |r| <= |s|
    ensures r != [] ==> !IsBlank(r[0])
  {
    if s != [] && IsBlank(s[0]) then SkipBlanks(s[1..]) else s
  }

  lemma {:induction false} SkipBlanksShape(s: seq<byte>)
    ensures var r := SkipBlanks(s);
            s == s[..|s| - |r|] + r && Plain(s[..|s| - |r|])
  {
    if s != [] && IsBlank(s[0]) {
      SkipBlanksShape(s[1..]);
      var r := SkipBlanks(s);
      assert s[..|s| - |r|] == [s[0]] + s[1..][..|s| - 1 - |r|];
    }
  }

  /** Decimal digits of n, most significant first, with no leading zero. */
  function Digits(n: nat): (r: seq<byte>)
    ensures |r| > 0
    ensures forall i :: 0 <= i < |r| ==> IsDigit(r[i])
  {
    if n < 10 then [48 + n] else Digits(n / 10) + [48 + n % 10]
  }
}
