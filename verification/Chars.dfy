/** Plain `char`, taken to be signed, and its lower case in the C locale. */
module Chars {

  /** Bytes from 128 on compare below the others. */
  function Signed(c: char): int {
    if 128 <= c as int < 256 then c as int - 256 else c as int
  }

  function ToLower(c: char): char {
    if 'A' <= c <= 'Z' then (c as int + 32) as char else c
  }

  /** `tolower`, on what a read returns: a byte, or -1. */
  function LowerCode(n: int): int {
    if 'A' as int <= n <= 'Z' as int then n + 32 else n
  }

  predicate SameCode(m: int, n: int, caseSensitive: bool) {
    if caseSensitive then m == n else LowerCode(m) == LowerCode(n)
  }

  /** Without regard to case, the same code or a letter and its other case. */
  lemma SameButForCase(m: int, n: int)
    ensures SameCode(m, n, true) <==> m == n
    ensures SameCode(m, n, false) <==>
            m == n || ('A' as int <= m <= 'Z' as int && n == m + 32) || ('A' as int <= n <= 'Z' as int && m == n + 32)
    ensures forall c: char :: ToLower(c) as int == LowerCode(c as int)
  {
  }

  /** The same text, or the same but for the case of its letters. */
  predicate Alike(s: string, t: string, caseSensitive: bool) {
    |s| == |t| && forall i :: 0 <= i < |s| ==> SameCode(s[i] as int, t[i] as int, caseSensitive)
  }

  predicate Ascii(s: string) {
    forall i :: 0 <= i < |s| ==> s[i] as int < 128
  }
}
