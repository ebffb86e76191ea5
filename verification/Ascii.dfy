/** ASCII case folding as Rust's to_ascii_lowercase does it. */
module Ascii {

  function LowerChar(c: char): char {
    if 'A' <= c <= 'Z' then (c as int + 32) as char else c
  }

  function ToLower(s: string): (r: string)
    ensures |r| == |s|
    ensures forall i | 0 <= i < |s| :: r[i] == LowerChar(s[i])
  {
    seq(|s|, i requires 0 <= i < |s| => LowerChar(s[i]))
  }

  lemma LowerFixes(s: string)
    requires forall i | 0 <= i < |s| :: !('A' <= s[i] <= 'Z')
    ensures ToLower(s) == s
  {
  }

  const UPPER: string := "ABCDEFGHIJKLMNOPQRSTUVWXYZ"
  const LOWER: string := "abcdefghijklmnopqrstuvwxyz"

  /** Capitals become the small letters of the same place in the alphabet. */
  lemma LowerLetter(i: nat)
    requires i < 26
    ensures LowerChar(UPPER[i]) == LOWER[i]
  {
  }

  /** Every other character stays. */
  lemma {:induction false} LowerOther(c: char)
    requires c !in UPPER
    ensures LowerChar(c) == c
  {
    if 'A' <= c <= 'Z' {
      CapitalIsUpper(c as int - 'A' as int);
    }
  }

  lemma CapitalIsUpper(i: nat)
    requires i < 26
    ensures UPPER[i] == ('A' as int + i) as char
  {
  }
}
