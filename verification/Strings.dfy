/** Searching and joining strings, and hexadecimal digits. */
module Strings {
  /** Where a character first occurs, or the length. */
  function Find(s: string, ch: char): (n: nat)
    ensures n <= |s| && (n < |s| ==> s[n] == ch)
    ensures forall k | 0 <= k < n :: s[k] != ch
  {
    if s == "" || s[0] == ch then 0 else 1 + Find(s[1..], ch)
  }

  lemma FindThen(a: string, ch: char, b: string)
    requires ch !in a
    ensures Find(a + [ch] + b, ch) == |a|
  {
    var t := a + [ch] + b;
    assert t[|a|] == ch && forall k | 0 <= k < |a| :: t[k] == a[k] != ch;
  }

  function Concat(pieces: seq<string>): string {
    if pieces == [] then "" else pieces[0] + Concat(pieces[1..])
  }

  predicate IsHex(ch: char) { '0' <= ch <= '9' || 'a' <= ch <= 'f' || 'A' <= ch <= 'F' }

  /** The value of a hexadecimal digit, or -1. */
  function HexValue(ch: char): (v: int)
    ensures -1 <= v < 16 && (v >= 0 <==> IsHex(ch))
  {
    if '0' <= ch <= '9' then ch as int - '0' as int
    else if 'a' <= ch <= 'f' then ch as int - 'a' as int + 10
    else if 'A' <= ch <= 'F' then ch as int - 'A' as int + 10
    else -1
  }
}
