/**
 * The string operations of Python's `str` that the source relies on, on
 * `seq<char>` (one element per code point, as Python counts `len`).
 */
module Text {

  /** Python's `str.isspace()`: the characters `strip()`, `split()` and `\s` treat as white space. */
  predicate IsSpace(c: char) {
    c == ' ' || ('\t' <= c <= '\r') || ('\U{1C}' <= c <= '\U{1F}') || c == '\U{85}' || c == '\U{A0}'
    || c == '\U{1680}' || ('\U{2000}' <= c <= '\U{200A}') || c == '\U{2028}' || c == '\U{2029}'
    || c == '\U{202F}' || c == '\U{205F}' || c == '\U{3000}'
  }

  predicate IsAsciiDigit(c: char) {
    '0' <= c <= '9'
  }

  /**
   * A Unicode decimal digit (general category Nd): what `\d` matches in a
   * `str` pattern, what `str.isdecimal()` accepts and what `float()` and
   * `int()` read as a digit.  Beyond '0'..'9' the digits come in blocks of
   * ten consecutive code points, each starting at its zero.
   */
  predicate IsDigit(c: char) {
    IsAsciiDigit(c) || WideZero(c as int) >= 0
  }

  /**
   * The zero of the block of ten non-ASCII decimal digits that holds code
   * point `x`, or -1 when `x` lies in none.  The 67 blocks are those of
   * Unicode 15.1, the database of Python 3.13, searched by halves.
   */
  function WideZero(x: int): (z: int)
    ensures z == -1 || (0x660 <= z <= x < z + 10)
  {
    if x < 0x660 then -1
    else if x < 0xAA50 then
      if x < 0x1040 then
        if x < 0xBE6 then
          if x < 0x9E6 then
            if x < 0x7C0 then
              if x < 0x6F0 then
                if x < 0x66A then 0x660 else -1
              else
                if x < 0x6FA then 0x6F0 else -1
            else
              if x < 0x966 then
                if x < 0x7CA then 0x7C0 else -1
              else
                if x < 0x970 then 0x966 else -1
          else
            if x < 0xAE6 then
              if x < 0xA66 then
                if x < 0x9F0 then 0x9E6 else -1
              else
                if x < 0xA70 then 0xA66 else -1
            else
              if x < 0xB66 then
                if x < 0xAF0 then 0xAE6 else -1
              else
                if x < 0xB70 then 0xB66 else -1
        else
          if x < 0xDE6 then
            if x < 0xCE6 then
              if x < 0xC66 then
                if x < 0xBF0 then 0xBE6 else -1
              else
                if x < 0xC70 then 0xC66 else -1
            else
              if x < 0xD66 then
                if x < 0xCF0 then 0xCE6 else -1
              else
                if x < 0xD70 then 0xD66 else -1
          else
            if x < 0xED0 then
              if x < 0xE50 then
                if x < 0xDF0 then 0xDE6 else -1
              else
                if x < 0xE5A then 0xE50 else -1
            else
              if x < 0xF20 then
                if x < 0xEDA then 0xED0 else -1
              else
                if x < 0xF2A then 0xF20 else -1
      else
        if x < 0x1B50 then
          if x < 0x1946 then
            if x < 0x17E0 then
              if x < 0x1090 then
                if x < 0x104A then 0x1040 else -1
              else
                if x < 0x109A then 0x1090 else -1
            else
              if x < 0x1810 then
                if x < 0x17EA then 0x17E0 else -1
              else
                if x < 0x181A then 0x1810 else -1
          else
            if x < 0x1A80 then
              if x < 0x19D0 then
                if x < 0x1950 then 0x1946 else -1
              else
                if x < 0x19DA then 0x19D0 else -1
            else
              if x < 0x1A90 then
                if x < 0x1A8A then 0x1A80 else -1
              else
                if x < 0x1A9A then 0x1A90 else -1
        else
          if x < 0xA620 then
            if x < 0x1C40 then
              if x < 0x1BB0 then
                if x < 0x1B5A then 0x1B50 else -1
              else
                if x < 0x1BBA then 0x1BB0 else -1
            else
              if x < 0x1C50 then
                if x < 0x1C4A then 0x1C40 else -1
              else
                if x < 0x1C5A then 0x1C50 else -1
          else
            if x < 0xA900 then
              if x < 0xA8D0 then
                if x < 0xA62A then 0xA620 else -1
              else
                if x < 0xA8DA then 0xA8D0 else -1
            else
              if x < 0xA9D0 then
                if x < 0xA90A then 0xA900 else -1
              else
                if x < 0xA9F0 then
                  if x < 0xA9DA then 0xA9D0 else -1
                else
                  if x < 0xA9FA then 0xA9F0 else -1
    else
      if x < 0x11C50 then
        if x < 0x111D0 then
          if x < 0x10D30 then
            if x < 0xFF10 then
              if x < 0xABF0 then
                if x < 0xAA5A then 0xAA50 else -1
              else
                if x < 0xABFA then 0xABF0 else -1
            else
              if x < 0x104A0 then
                if x < 0xFF1A then 0xFF10 else -1
              else
                if x < 0x104AA then 0x104A0 else -1
          else
            if x < 0x110F0 then
              if x < 0x11066 then
                if x < 0x10D3A then 0x10D30 else -1
              else
                if x < 0x11070 then 0x11066 else -1
            else
              if x < 0x11136 then
                if x < 0x110FA then 0x110F0 else -1
              else
                if x < 0x11140 then 0x11136 else -1
        else
          if x < 0x11650 then
            if x < 0x11450 then
              if x < 0x112F0 then
                if x < 0x111DA then 0x111D0 else -1
              else
                if x < 0x112FA then 0x112F0 else -1
            else
              if x < 0x114D0 then
                if x < 0x1145A then 0x11450 else -1
              else
                if x < 0x114DA then 0x114D0 else -1
          else
            if x < 0x11730 then
              if x < 0x116C0 then
                if x < 0x1165A then 0x11650 else -1
              else
                if x < 0x116CA then 0x116C0 else -1
            else
              if x < 0x118E0 then
                if x < 0x1173A then 0x11730 else -1
              else
                if x < 0x11950 then
                  if x < 0x118EA then 0x118E0 else -1
                else
                  if x < 0x1195A then 0x11950 else -1
      else
        if x < 0x1D7D8 then
          if x < 0x16A60 then
            if x < 0x11DA0 then
              if x < 0x11D50 then
                if x < 0x11C5A then 0x11C50 else -1
              else
                if x < 0x11D5A then 0x11D50 else -1
            else
              if x < 0x11F50 then
                if x < 0x11DAA then 0x11DA0 else -1
              else
                if x < 0x11F5A then 0x11F50 else -1
          else
            if x < 0x16B50 then
              if x < 0x16AC0 then
                if x < 0x16A6A then 0x16A60 else -1
              else
                if x < 0x16ACA then 0x16AC0 else -1
            else
              if x < 0x1D7CE then
                if x < 0x16B5A then 0x16B50 else -1
              else
                if x < 0x1D7D8 then 0x1D7CE else -1
        else
          if x < 0x1E140 then
            if x < 0x1D7EC then
              if x < 0x1D7E2 then
                if x < 0x1D7E2 then 0x1D7D8 else -1
              else
                if x < 0x1D7EC then 0x1D7E2 else -1
            else
              if x < 0x1D7F6 then
                if x < 0x1D7F6 then 0x1D7EC else -1
              else
                if x < 0x1D800 then 0x1D7F6 else -1
          else
            if x < 0x1E4F0 then
              if x < 0x1E2F0 then
                if x < 0x1E14A then 0x1E140 else -1
              else
                if x < 0x1E2FA then 0x1E2F0 else -1
            else
              if x < 0x1E950 then
                if x < 0x1E4FA then 0x1E4F0 else -1
              else
                if x < 0x1FBF0 then
                  if x < 0x1E95A then 0x1E950 else -1
                else
                  if x < 0x1FBFA then 0x1FBF0 else -1
  }

  lemma {:induction false} DigitNotSpace(c: char)
    requires IsDigit(c) || c == '-' || c == '+' || c == '.' || c == 'e'
    ensures !IsSpace(c)
  {
  }

  predicate AllDigits(s: string) {
    forall i :: 0 <= i < |s| ==> IsDigit(s[i])
  }

  /** Digits from '0'..'9' only, as `str()` and `strftime` write them. */
  predicate AsciiDigits(s: string) {
    forall i :: 0 <= i < |s| ==> IsAsciiDigit(s[i])
  }

  predicate StartsWith(s: string, p: string) {
    |p| <= |s| && s[..|p|] == p
  }

  predicate EndsWith(s: string, p: string) {
    |p| <= |s| && s[|s| - |p|..] == p
  }

  /** Python's `sub in s`. */
  predicate Contains(s: string, sub: string) {
    exists i | 0 <= i <= |s| - |sub| :: OccursAt(s, sub, i)
  }

  predicate OccursAt(s: string, sub: string, i: nat) {
    i + |sub| <= |s| && s[i..i + |sub|] == sub
  }

  /** Index of the first non-space character at or after `i`. */
  function SkipSpace(s: string, i: nat): (k: nat)
    requires i <= |s|
    ensures i <= k <= |s|
    decreases |s| - i
  {
    if i == |s| || !IsSpace(s[i]) then i else SkipSpace(s, i + 1)
  }

  lemma {:induction false} SkipSpaceSpec(s: string, i: nat)
    requires i <= |s|
    ensures forall m :: i <= m < SkipSpace(s, i) ==> IsSpace(s[m])
    ensures SkipSpace(s, i) < |s| ==> !IsSpace(s[SkipSpace(s, i)])
    decreases |s| - i
  {
    if i < |s| && IsSpace(s[i]) { SkipSpaceSpec(s, i + 1); }
  }

  /** Skipping white space from `i` stops at the first character that is not white space. */
  lemma {:induction false} SkipSpaceTo(s: string, i: nat, k: nat)
    requires i <= k < |s| && !IsSpace(s[k]) && forall m :: i <= m < k ==> IsSpace(s[m])
    ensures SkipSpace(s, i) == k
    decreases k - i
  {
    if i < k {
      SkipSpaceTo(s, i + 1, k);
    }
  }

  /** End of `s[..j]` once trailing spaces are dropped, not going below `i`. */
  function TrimEnd(s: string, i: nat, j: nat): (k: nat)
    requires i <= j <= |s|
    ensures i <= k <= j
    decreases j
  {
    if j == i || !IsSpace(s[j - 1]) then j else TrimEnd(s, i, j - 1)
  }

  lemma {:induction false} TrimEndSpec(s: string, i: nat, j: nat)
    requires i <= j <= |s|
    ensures forall m :: TrimEnd(s, i, j) <= m < j ==> IsSpace(s[m])
    ensures TrimEnd(s, i, j) > i ==> !IsSpace(s[TrimEnd(s, i, j) - 1])
    decreases j
  {
    if j > i && IsSpace(s[j - 1]) { TrimEndSpec(s, i, j - 1); }
  }

  /** Python's `s.strip()`: `s` without its leading and trailing white space. */
  function Strip(s: string): (r: string)
    ensures |r| <= |s|
  {
    var i := SkipSpace(s, 0);
    s[i..TrimEnd(s, i, |s|)]
  }

  /** `s[i..j]` is what is left of `s` once white space is removed from both ends. */
  predicate StrippedAt(s: string, i: nat, j: nat) {
    i <= j <= |s| && (forall m :: 0 <= m < i ==> IsSpace(s[m])) && (forall m :: j <= m < |s| ==> IsSpace(s[m]))
  }

  /** `strip()` removes white space at both ends and nothing else. */
  lemma {:induction false} StripSpec(s: string)
    ensures var r := Strip(s); r == [] || (!IsSpace(r[0]) && !IsSpace(r[|r| - 1]))
    ensures exists i: nat, j: nat :: StrippedAt(s, i, j) && Strip(s) == s[i..j]
  {
    var i := SkipSpace(s, 0);
    var j := TrimEnd(s, i, |s|);
    SkipSpaceSpec(s, 0);
    TrimEndSpec(s, i, |s|);
    assert StrippedAt(s, i, j);
  }

  /** A string that neither starts nor ends with white space is its own `strip()`. */
  lemma {:induction false} StripStripped(s: string)
    requires s == [] || (!IsSpace(s[0]) && !IsSpace(s[|s| - 1]))
    ensures Strip(s) == s
  {
  }

  /** The first word of `s.split()` when `s.strip()` is not empty. */
  function FirstWord(s: string): (w: string)
    requires Strip(s) != []
    ensures w != [] && forall m :: 0 <= m < |w| ==> !IsSpace(w[m])
    ensures StartsWith(Strip(s), w)
    ensures |w| < |Strip(s)| ==> IsSpace(Strip(s)[|w|])
  {
    var t := Strip(s);
    StripSpec(s);
    t[..WordEnd(t, 0)]
  }

  function WordEnd(t: string, i: nat): (k: nat)
    requires i <= |t|
    ensures i <= k <= |t|
    ensures forall m :: i <= m < k ==> !IsSpace(t[m])
    ensures k < |t| ==> IsSpace(t[k])
    decreases |t| - i
  {
    if i == |t| || IsSpace(t[i]) then i else WordEnd(t, i + 1)
  }

  /** Python's `sep.join(parts)`. */
  function Join(sep: string, parts: seq<string>): string {
    if parts == [] then ""
    else if |parts| == 1 then parts[0]
    else parts[0] + sep + Join(sep, parts[1..])
  }

  function IndexOfChar(s: string, c: char): (i: nat)
    ensures i <= |s|
    ensures i < |s| ==> s[i] == c
    ensures forall m :: 0 <= m < i ==> s[m] != c
  {
    if s == [] || s[0] == c then 0 else 1 + IndexOfChar(s[1..], c)
  }

  /** Python's `s.split(sep)` for a one-character separator. */
  function Split(s: string, sep: char): (parts: seq<string>)
    ensures |parts| >= 1
    ensures forall i :: 0 <= i < |parts| ==> sep !in parts[i]
    decreases |s|
  {
    var i := IndexOfChar(s, sep);
    if i == |s| then [s]
    else [s[..i]] + Split(s[i + 1..], sep)
  }

  /** Joining the parts with the separator gives the string back. */
  lemma {:induction false} SplitJoin(s: string, sep: char)
    ensures Join([sep], Split(s, sep)) == s
    decreases |s|
  {
    var i := IndexOfChar(s, sep);
    if i < |s| {
      var rest := Split(s[i + 1..], sep);
      var parts := [s[..i]] + rest;
      assert Split(s, sep) == parts;
      assert parts[1..] == rest;
      assert Join([sep], parts) == s[..i] + [sep] + Join([sep], rest);
      SplitJoin(s[i + 1..], sep);
      assert s == s[..i] + [sep] + s[i + 1..];
    }
  }

  /** Splitting at a separator splits the two sides independently. */
  lemma {:induction false} SplitAround(a: string, sep: char, b: string)
    ensures Split(a + [sep] + b, sep) == Split(a, sep) + Split(b, sep)
    decreases |a|
  {
    var s := a + [sep] + b;
    var i := IndexOfChar(a, sep);
    assert s == a + ([sep] + b);
    IndexOfCharPrefix(a, sep, [sep] + b);
    assert IndexOfChar(s, sep) == i;
    if i == |a| {
      SplitAtFirst(a, sep, b);
    } else {
      var a2 := a[i + 1..];
      SplitPastFirst(a, sep, b, i);
      SplitAround(a2, sep, b);
      ConcatAssoc([a[..i]], Split(a2, sep), Split(b, sep));
    }
  }

  lemma {:induction false} ConcatAssoc<T>(x: seq<T>, y: seq<T>, z: seq<T>)
    ensures x + (y + z) == x + y + z
  {
  }

  /** The first separator inside `a` cuts the same first part from `a` and from `a + [sep] + b`. */
  lemma {:induction false} SplitPastFirst(a: string, sep: char, b: string, i: nat)
    requires i < |a| && IndexOfChar(a, sep) == i && IndexOfChar(a + [sep] + b, sep) == i
    ensures Split(a + [sep] + b, sep) == [a[..i]] + Split(a[i + 1..] + [sep] + b, sep)
    ensures Split(a, sep) == [a[..i]] + Split(a[i + 1..], sep)
  {
    var s := a + [sep] + b;
    assert s[..i] == a[..i];
    assert s[i + 1..] == a[i + 1..] + [sep] + b;
  }

  /** The separator added after a part without one ends that part. */
  lemma {:induction false} SplitAtFirst(a: string, sep: char, b: string)
    requires IndexOfChar(a + [sep] + b, sep) == |a| == IndexOfChar(a, sep)
    ensures Split(a + [sep] + b, sep) == Split(a, sep) + Split(b, sep)
  {
    var s := a + [sep] + b;
    assert s[..|a|] == a && s[|a| + 1..] == b;
    assert Split(s, sep) == [a] + Split(b, sep);
    assert Split(a, sep) == [a];
  }

  lemma {:induction false} IndexOfCharPrefix(a: string, c: char, b: string)
    requires b != [] && b[0] == c
    ensures IndexOfChar(a + b, c) == IndexOfChar(a, c)
  {
    if a != [] && a[0] != c {
      assert (a + b)[1..] == a[1..] + b;
      IndexOfCharPrefix(a[1..], c, b);
    }
  }

  /** A string without the separator is a single part. */
  lemma {:induction false} SplitNoSep(s: string, sep: char)
    requires sep !in s
    ensures Split(s, sep) == [s]
  {
  }

  /** Python's `s.lower()` on ASCII letters. */
  function Lower(s: string): (r: string)
    ensures |r| == |s|
    ensures forall i :: 0 <= i < |s| ==> r[i] == LowerChar(s[i])
  {
    seq(|s|, i requires 0 <= i < |s| => LowerChar(s[i]))
  }

  function LowerChar(c: char): char {
    if 'A' <= c <= 'Z' then (c as int + 32) as char else c
  }

  /** A string without upper-case letters is its own lower case. */
  lemma {:induction false} LowerNoUpper(s: string)
    requires forall i :: 0 <= i < |s| ==> !('A' <= s[i] <= 'Z')
    ensures Lower(s) == s
  {
  }

  /** `s.replace(a, b)` for single characters. */
  function ReplaceChar(s: string, a: char, b: char): (r: string)
    ensures |r| == |s|
    ensures a != b ==> a !in r
    ensures forall i :: 0 <= i < |s| ==> r[i] == (if s[i] == a then b else s[i])
  {
    seq(|s|, i requires 0 <= i < |s| => if s[i] == a then b else s[i])
  }

  /** `s.replace(c, '')`. */
  function RemoveChar(s: string, c: char): (r: string)
    ensures c !in r
    ensures |r| <= |s|
    ensures c !in s ==> r == s
    ensures forall x :: x in r ==> x in s
  {
    if s == [] then []
    else if s[0] == c then RemoveChar(s[1..], c)
    else [s[0]] + RemoveChar(s[1..], c)
  }

  /** `s.replace(pat, rep)` for a non-empty pattern, left to right and without overlaps. */
  function ReplaceAll(s: string, pat: string, rep: string): (r: string)
    requires pat != []
    ensures !Contains(s, pat) ==> r == s
    decreases |s|
  {
    if |s| < |pat| then s
    else if s[..|pat|] == pat then
      assert OccursAt(s, pat, 0);
      rep + ReplaceAll(s[|pat|..], pat, rep)
    else
      var r := [s[0]] + ReplaceAll(s[1..], pat, rep);
      assert !Contains(s, pat) ==> !Contains(s[1..], pat) by {
        if Contains(s[1..], pat) {
          var i :| 0 <= i <= |s[1..]| - |pat| && OccursAt(s[1..], pat, i);
          assert s[i + 1..i + 1 + |pat|] == pat;
          assert OccursAt(s, pat, i + 1);
        }
      }
      r
  }

  /** Python's `a < b` on strings: lexicographic by code point. */
  predicate Less(a: string, b: string) {
    if a == [] then b != []
    else if b == [] then false
    else a[0] < b[0] || (a[0] == b[0] && Less(a[1..], b[1..]))
  }

  lemma {:induction false} LessIrreflexive(a: string)
    ensures !Less(a, a)
  {
    if a != [] {
      LessIrreflexive(a[1..]);
    }
  }

  lemma {:induction false} LessTransitive(a: string, b: string, c: string)
    requires Less(a, b) && Less(b, c)
    ensures Less(a, c)
  {
    if a != [] && b != [] && c != [] && a[0] == b[0] == c[0] {
      LessTransitive(a[1..], b[1..], c[1..]);
    }
  }

  lemma {:induction false} LessTotal(a: string, b: string)
    requires a != b
    ensures Less(a, b) || Less(b, a)
  {
    if a != [] && b != [] && a[0] == b[0] {
      assert a == [a[0]] + a[1..] && b == [b[0]] + b[1..];
      LessTotal(a[1..], b[1..]);
    }
  }

  lemma {:induction false} LessAsymmetric(a: string, b: string)
    requires Less(a, b)
    ensures !Less(b, a)
  {
    if a != [] && b != [] && a[0] == b[0] {
      LessAsymmetric(a[1..], b[1..]);
    }
  }

  function DigitChar(d: nat): char
    requires d < 10
  {
    ('0' as int + d) as char
  }

  /** The value of a decimal digit: its distance from the zero of its block. */
  function DigitValue(c: char): (v: nat)
    requires IsDigit(c)
    ensures v < 10
    ensures IsAsciiDigit(c) ==> c == DigitChar(v)
  {
    if IsAsciiDigit(c) then c as int - '0' as int else c as int - WideZero(c as int)
  }

  /** The number a string of decimal digits denotes. */
  function DigitsValue(s: string): nat
    requires AllDigits(s)
  {
    if s == [] then 0 else DigitsValue(s[..|s| - 1]) * 10 + DigitValue(s[|s| - 1])
  }

  function Pow10(k: nat): (p: nat)
    ensures p >= 1
  {
    if k == 0 then 1 else 10 * Pow10(k - 1)
  }

  lemma {:induction false} AllDigitsAppend(a: string, b: string)
    requires AllDigits(a) && AllDigits(b)
    ensures AllDigits(a + b)
  {
    forall i | 0 <= i < |a + b| ensures IsDigit((a + b)[i]) {
      if i >= |a| { assert (a + b)[i] == b[i - |a|]; }
    }
  }

  lemma {:induction false} AsciiDigitsAppend(a: string, b: string)
    requires AsciiDigits(a) && AsciiDigits(b)
    ensures AsciiDigits(a + b)
  {
    forall i | 0 <= i < |a + b| ensures IsAsciiDigit((a + b)[i]) {
      if i >= |a| { assert (a + b)[i] == b[i - |a|]; }
    }
  }

  lemma {:induction false} DigitsValueAppend(a: string, b: string)
    requires AllDigits(a) && AllDigits(b)
    ensures AllDigits(a + b)
    ensures DigitsValue(a + b) == DigitsValue(a) * Pow10(|b|) + DigitsValue(b)
    decreases |b|
  {
    AllDigitsAppend(a, b);
    if b == [] {
      assert a + b == a;
    } else {
      var b', c := b[..|b| - 1], b[|b| - 1];
      assert b == b' + [c];
      ConcatAssoc(a, b', [c]);
      LastDigit(a + b', c);
      LastDigit(b', c);
      DigitsValueAppend(a, b');
      ShiftDigit(DigitsValue(a), DigitsValue(b'), Pow10(|b'|), DigitValue(c));
    }
  }

  /** The value of digits ending in `c` is ten times the value before it, plus `c`'s. */
  lemma {:induction false} LastDigit(init: string, c: char)
    requires AllDigits(init + [c])
    ensures AllDigits(init) && IsDigit(c)
    ensures DigitsValue(init + [c]) == DigitsValue(init) * 10 + DigitValue(c)
  {
    var s := init + [c];
    assert s[..|s| - 1] == init && s[|s| - 1] == c;
    assert forall i :: 0 <= i < |init| ==> init[i] == s[i];
  }

  lemma {:induction false} ShiftDigit(x: nat, y: nat, p: nat, d: nat)
    ensures (x * p + y) * 10 + d == x * (10 * p) + (y * 10 + d)
  {
  }

  /** `str(n)` for a natural number: its decimal digits, without leading zeros. */
  function NatToString(n: nat): (s: string)
    ensures s != [] && AllDigits(s) && AsciiDigits(s)
    ensures DigitsValue(s) == n
    ensures s[0] == '0' ==> n == 0 && |s| == 1
  {
    if n < 10 then [DigitChar(n)]
    else
      var s := NatToString(n / 10) + [DigitChar(n % 10)];
      assert s[..|s| - 1] == NatToString(n / 10);
      s
  }

  /** `str(i)` for an integer. */
  function IntToString(i: int): (s: string)
    ensures s != []
    ensures i >= 0 ==> s == NatToString(i)
    ensures i < 0 ==> s == "-" + NatToString(-i)
  {
    if i < 0 then "-" + NatToString(-i) else NatToString(i)
  }

  /** `n` written with exactly `w` digits, zero-filled on the left (`%0wd`), when it fits. */
  function ZeroPad(n: nat, w: nat): (s: string)
    ensures AllDigits(s) && AsciiDigits(s)
    ensures |NatToString(n)| <= w ==> |s| == w
    ensures DigitsValue(s) == n
  {
    var d := NatToString(n);
    if |d| >= w then d
    else
      var z := Zeros(w - |d|);
      DigitsValueAppend(z, d);
      AsciiDigitsAppend(z, d);
      z + d
  }

  function Zeros(k: nat): (z: string)
    ensures |z| == k && AllDigits(z) && AsciiDigits(z) && DigitsValue(z) == 0
  {
    if k == 0 then []
    else
      var z := Zeros(k - 1) + ['0'];
      assert z[..|z| - 1] == Zeros(k - 1);
      z
  }

  lemma {:induction false} NatToStringLength(n: nat, w: nat)
    requires n < Pow10(w)
    ensures |NatToString(n)| <= w || (n == 0 && w == 0)
  {
    if n >= 10 {
      assert w > 0;
      assert n / 10 < Pow10(w - 1);
      NatToStringLength(n / 10, w - 1);
    }
  }
}
