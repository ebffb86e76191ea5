/** Tokenising and number parsing as Rust's `str` does them. */
module Text {
  import opened Base

  /** Unicode White_Space, the separator of `split_whitespace`. */
  predicate IsSpace(c: char) {
    var n := c as int;
    || 0x09 <= n <= 0x0D || n == 0x20 || n == 0x85 || n == 0xA0 || n == 0x1680
    || 0x2000 <= n <= 0x200A || n == 0x2028 || n == 0x2029 || n == 0x202F || n == 0x205F || n == 0x3000
  }

  /** The code points with that property, one by one. */
  const WHITE_SPACE: set<int> := {
    0x09, 0x0A, 0x0B, 0x0C, 0x0D, 0x20, 0x85, 0xA0, 0x1680, 0x2000, 0x2001, 0x2002, 0x2003, 0x2004, 0x2005, 0x2006,
    0x2007, 0x2008, 0x2009, 0x200A, 0x2028, 0x2029, 0x202F, 0x205F, 0x3000
  }

  lemma SpaceExactly(c: char)
    ensures IsSpace(c) <==> c as int in WHITE_SPACE
  {
  }

  predicate IsToken(w: string) {
    |w| > 0 && forall i | 0 <= i < |w| :: !IsSpace(w[i])
  }

  /** Length of the leading run without white space. */
  function WordLen(s: string): (n: nat)
    ensures n <= |s|
    ensures forall i | 0 <= i < n :: !IsSpace(s[i])
    ensures n < |s| ==> IsSpace(s[n])
  {
    if |s| == 0 || IsSpace(s[0]) then 0 else 1 + WordLen(s[1..])
  }

  function Split(s: string): (ws: seq<string>)
    ensures forall i | 0 <= i < |ws| :: IsToken(ws[i])
    decreases |s|
  {
    if |s| == 0 then []
    else if IsSpace(s[0]) then Split(s[1..])
    else
      var n := WordLen(s);
      [s[..n]] + Split(s[n..])
  }

  /** A token followed by the end or by white space is the first word. */
  lemma {:induction false} SplitToken(w: string, rest: string)
    requires IsToken(w) && (rest == [] || IsSpace(rest[0]))
    ensures Split(w + rest) == [w] + Split(rest)
  {
    var s := w + rest;
    assert WordLen(s) == |w|;
    assert s[..|w|] == w && s[|w|..] == rest;
  }

  lemma {:induction false} SplitSpace(c: char, rest: string)
    requires IsSpace(c)
    ensures Split([c] + rest) == Split(rest)
  {
    assert ([c] + rest)[1..] == rest;
  }

  /** White space cuts a string into independently tokenised halves. */
  lemma {:induction false} SplitCut(a: string, c: char, b: string)
    requires IsSpace(c)
    ensures Split(a + [c] + b) == Split(a) + Split(b)
    decreases |a|
  {
    hide IsSpace;
    var s := a + [c] + b;
    if |a| == 0 {
      assert s == [c] + b;
      SplitSpace(c, b);
    } else if IsSpace(a[0]) {
      SplitCut(a[1..], c, b);
      assert s[1..] == a[1..] + [c] + b;
    } else {
      var n := WordLen(a);
      var w, r := a[..n], a[n..];
      assert a == w + r;
      SplitCut(r, c, b);
      SplitCutWord(w, r, c, b);
    }
  }

  lemma {:induction false} SplitCutWord(w: string, r: string, c: char, b: string)
    requires IsSpace(c) && IsToken(w) && (r == [] || IsSpace(r[0]))
    requires Split(r + [c] + b) == Split(r) + Split(b)
    ensures Split(w + r + [c] + b) == Split(w + r) + Split(b)
  {
    hide Split, IsSpace;
    SplitToken(w, r);
    SplitToken(w, r + [c] + b);
    assert w + r + [c] + b == w + (r + [c] + b);
  }

  // ---------------------------------------------------------------- numbers

  const DIGITS: string := "0123456789abcdef"

  /** `char::to_digit`. */
  function DigitValue(c: char): Option<nat> {
    if '0' <= c <= '9' then Some(c as int - '0' as int)
    else if 'a' <= c <= 'z' then Some(c as int - 'a' as int + 10)
    else if 'A' <= c <= 'Z' then Some(c as int - 'A' as int + 10)
    else None
  }

  /** The number a string of digits denotes, None when a character is no digit of the radix. */
  function Value(s: string, radix: nat): Option<nat> {
    if |s| == 0 then Some(0)
    else
      var d := DigitValue(s[|s| - 1]);
      var v := Value(s[..|s| - 1], radix);
      if v.Some? && d.Some? && d.value < radix then Some(v.value * radix + d.value) else None
  }

  /** Parsing of a 64-bit unsigned number: an optional plus sign, at least one digit, no overflow. */
  function ParseU64(s: string, radix: nat): Option<u64> {
    var digits := if |s| > 1 && s[0] == '+' then s[1..] else s;
    var v := Value(digits, radix);
    if |digits| == 0 || v.None? || v.value >= U64_LIMIT then None else Some(v.value)
  }

  predicate IsRadix(radix: nat) { radix == 10 || radix == 16 }

  /** The shortest digits of n. */
  function Print(n: nat, radix: nat): (s: string)
    requires IsRadix(radix)
    ensures |s| > 0
    decreases n
  {
    if n < radix then [DIGITS[n]] else Print(n / radix, radix) + [DIGITS[n % radix]]
  }

  lemma DigitRoundTrip(d: nat)
    requires d < 16
    ensures DigitValue(DIGITS[d]) == Some(d) && !IsSpace(DIGITS[d])
    ensures DIGITS[d] != '+' && DIGITS[d] != '-' && DIGITS[d] != ')' && DIGITS[d] != '\n' && DIGITS[d] != '\r'
  {
  }

  lemma Recompose(n: nat, radix: nat)
    requires IsRadix(radix)
    ensures n == (n / radix) * radix + n % radix
  {
  }

  /** A printed number is a single token of plain digits that denotes the number. */
  lemma {:induction false} PrintMeans(n: nat, radix: nat)
    requires IsRadix(radix)
    ensures Value(Print(n, radix), radix) == Some(n)
    ensures IsToken(Print(n, radix))
    ensures forall i | 0 <= i < |Print(n, radix)| :: exists d | 0 <= d < 16 :: Print(n, radix)[i] == DIGITS[d]
    decreases n
  {
    hide DigitValue, IsSpace;
    var s := Print(n, radix);
    if n < radix {
      DigitRoundTrip(n);
      assert s[..|s| - 1] == [];
    } else {
      PrintMeans(n / radix, radix);
      DigitRoundTrip(n % radix);
      assert s[..|s| - 1] == Print(n / radix, radix);
      Recompose(n, radix);
    }
  }

  /** Every 64-bit number survives printing and parsing, and no larger one is taken for a number. */
  lemma {:induction false} ParsePrint(n: nat, radix: nat)
    requires IsRadix(radix)
    ensures ParseU64(Print(n, radix), radix) == if n <= 0xFFFF_FFFF_FFFF_FFFF then Some(n) else None
  {
    PrintMeans(n, radix);
    var s := Print(n, radix);
    var d :| 0 <= d < 16 && s[0] == DIGITS[d];
    DigitRoundTrip(d);
  }

  /** One plus sign in front makes no difference, and the empty string is no number. */
  lemma {:induction false} ParsePlus(s: string, radix: nat)
    requires |s| > 0 && s[0] != '+'
    ensures ParseU64("+" + s, radix) == ParseU64(s, radix) && ParseU64("", radix) == None
  {
    assert ("+" + s)[1..] == s;
  }

  /** The letters of hexadecimal digits count alike in both cases. */
  lemma HexDigits(i: nat)
    requires i < 16
    ensures DigitValue("0123456789abcdef"[i]) == Some(i) == DigitValue("0123456789ABCDEF"[i])
  {
  }

  /** A string denotes a number exactly if all its characters are digits of the radix. */
  lemma {:induction false} ValueExactly(s: string, radix: nat)
    ensures Value(s, radix).Some? <==>
            forall i | 0 <= i < |s| :: DigitValue(s[i]).Some? && DigitValue(s[i]).value < radix
  {
    hide DigitValue;
    if |s| > 0 {
      ValueExactly(s[..|s| - 1], radix);
    }
  }
}
