/** Character classes and the handful of JavaScript string operations the
    price engine and the item store rely on, written over `seq<char>`. */
module Text {

  /** `\d` in a JavaScript regular expression without the `u` flag. */
  predicate IsDigit(c: char) { '0' <= c <= '9' }

  /** `\s` in a JavaScript regular expression, which is also the set that
      `String.prototype.trim` strips: WhiteSpace plus LineTerminator. */
  predicate IsSpace(c: char) {
    c == '\t' || c == '\n' || c == '\U{000B}' || c == '\U{000C}' || c == '\r' ||
    c == ' ' || c == '\U{00A0}' || c == '\U{1680}' || ('\U{2000}' <= c <= '\U{200A}') ||
    c == '\U{2028}' || c == '\U{2029}' || c == '\U{202F}' || c == '\U{205F}' ||
    c == '\U{3000}' || c == '\U{FEFF}'
  }

  /** ASCII whitespace as the DOM uses it to split class lists. */
  predicate IsAsciiSpace(c: char) {
    c == '\t' || c == '\n' || c == '\U{000C}' || c == '\r' || c == ' '
  }

  predicate AllDigits(s: string) {
    forall i :: 0 <= i < |s| ==> IsDigit(s[i])
  }

  function DigitValue(c: char): nat
    requires IsDigit(c)
  {
    (c as int) - ('0' as int)
  }

  /** Value of a string of decimal digits. */
  function DigitsValue(s: string): (v: nat)
    requires AllDigits(s)
  {
    if s == [] then 0 else 10 * DigitsValue(s[..|s| - 1]) + DigitValue(s[|s| - 1])
  }

  function Pow10(n: nat): (p: nat)
    ensures p >= 1
  {
    if n == 0 then 1 else 10 * Pow10(n - 1)
  }

  /** Number of consecutive digits starting at position `i`. */
  function DigitRun(s: string, i: nat): (n: nat)
    requires i <= |s|
    ensures i + n <= |s|
    ensures forall k :: i <= k < i + n ==> IsDigit(s[k])
    ensures i + n < |s| ==> !IsDigit(s[i + n])
    decreases |s| - i
  {
    if i < |s| && IsDigit(s[i]) then 1 + DigitRun(s, i + 1) else 0
  }

  /** The character classes used by the `replace(/[...]/g, ...)` calls. */
  datatype CharSet =
    | Single(c: char)
    | CommaOrDot
    | Whitespace
    | Digit
    | DigitOrDot
    | CommaOrSpace
    | DotOrSpace
    | SeparatorOrSpace

  predicate In(c: char, cs: CharSet) {
    match cs
    case Single(d) => c == d
    case CommaOrDot => c == ',' || c == '.'
    case Whitespace => IsSpace(c)
    case Digit => IsDigit(c)
    case DigitOrDot => IsDigit(c) || c == '.'
    case CommaOrSpace => c == ',' || IsSpace(c)
    case DotOrSpace => c == '.' || IsSpace(c)
    case SeparatorOrSpace => c == ',' || c == '.' || IsSpace(c)
  }

  /** The characters of `s` whose membership in `cs` equals `keep`, in order:
      `Filter(s, cs, false)` is `s.replace(/[cs]/g, "")`. */
  function Filter(s: string, cs: CharSet, keep: bool): (r: string)
    ensures |r| <= |s|
    ensures forall i :: 0 <= i < |r| ==> In(r[i], cs) == keep
  {
    if s == [] then []
    else (if In(s[0], cs) == keep then [s[0]] else []) + Filter(s[1..], cs, keep)
  }

  function Remove(s: string, cs: CharSet): string { Filter(s, cs, false) }

  /** The digits of `s`, in order. */
  function Digits(s: string): string { Filter(s, Digit, true) }

  /** A slice of a slice is a slice of the whole. */
  lemma SliceOfSlice(s: string, a: nat, b: nat, c: nat, d: nat)
    requires a <= b <= |s| && c <= d <= b - a
    ensures s[a..b][c..d] == s[a + c..a + d]
  {
    assert forall k :: 0 <= k < d - c ==> s[a..b][c..d][k] == s[a + c + k];
  }

  /** `s` around its character at `p`. */
  lemma SplitAt(s: string, p: nat)
    requires p < |s|
    ensures s == s[..p] + [s[p]] + s[p + 1..]
  {
    assert s[..p + 1] == s[..p] + [s[p]];
    assert s == s[..p + 1] + s[p + 1..];
  }

  lemma {:induction false} FilterConcat(a: string, b: string, cs: CharSet, keep: bool)
    ensures Filter(a + b, cs, keep) == Filter(a, cs, keep) + Filter(b, cs, keep)
  {
    if a == [] {
      assert a + b == b;
    } else {
      assert (a + b)[1..] == a[1..] + b;
      FilterConcat(a[1..], b, cs, keep);
    }
  }

  lemma {:induction false} FilterNoop(s: string, cs: CharSet, keep: bool)
    requires forall i :: 0 <= i < |s| ==> In(s[i], cs) == keep
    ensures Filter(s, cs, keep) == s
  {
    if s != [] {
      FilterNoop(s[1..], cs, keep);
    }
  }

  /** Removing characters that are not digits leaves the digits alone. */
  lemma {:induction false} DigitsOfRemove(s: string, cs: CharSet)
    requires forall c :: In(c, cs) ==> !IsDigit(c)
    ensures Digits(Remove(s, cs)) == Digits(s)
  {
    if s != [] {
      DigitsOfRemove(s[1..], cs);
      var head := if In(s[0], cs) then [] else [s[0]];
      assert Remove(s, cs) == head + Remove(s[1..], cs);
      FilterConcat(head, Remove(s[1..], cs), Digit, true);
    }
  }

  predicate Has(s: string, c: char) { c in s }

  /** `s.replace(c, d)` with a one-character string pattern: only the first
      occurrence is replaced. */
  function ReplaceFirst(s: string, c: char, d: char): (r: string)
    ensures |r| == |s|
  {
    if s == [] then []
    else if s[0] == c then [d] + s[1..]
    else [s[0]] + ReplaceFirst(s[1..], c, d)
  }

  lemma {:induction false} ReplaceFirstAbsent(s: string, c: char, d: char)
    requires c !in s
    ensures ReplaceFirst(s, c, d) == s
  {
    if s != [] {
      ReplaceFirstAbsent(s[1..], c, d);
    }
  }

  lemma {:induction false} ReplaceFirstConcat(a: string, b: string, c: char, d: char)
    requires c !in a
    ensures ReplaceFirst(a + b, c, d) == a + ReplaceFirst(b, c, d)
  {
    if a == [] {
      assert a + b == b;
    } else {
      assert (a + b)[0] == a[0];
      assert (a + b)[1..] == a[1..] + b;
      ReplaceFirstConcat(a[1..], b, c, d);
    }
  }

  /** Replacing one non-digit by another does not touch the digits. */
  lemma {:induction false} DigitsOfReplaceFirst(s: string, c: char, d: char)
    requires !IsDigit(c) && !IsDigit(d)
    ensures Digits(ReplaceFirst(s, c, d)) == Digits(s)
  {
    if s != [] {
      DigitsOfReplaceFirst(s[1..], c, d);
      if s[0] == c {
        FilterConcat([d], s[1..], Digit, true);
        assert s == [s[0]] + s[1..];
        FilterConcat([s[0]], s[1..], Digit, true);
      } else {
        FilterConcat([s[0]], ReplaceFirst(s[1..], c, d), Digit, true);
      }
    }
  }

  /** `s.replace(new RegExp(c, "g"), d)` for single characters. */
  function ReplaceAll(s: string, c: char, d: char): (r: string)
    ensures |r| == |s|
    ensures forall i :: 0 <= i < |s| ==> r[i] == if s[i] == c then d else s[i]
  {
    if s == [] then [] else [if s[0] == c then d else s[0]] + ReplaceAll(s[1..], c, d)
  }

  /** `s.indexOf(c)` for a one-character string: -1 when absent. */
  function FirstIndexOf(s: string, c: char): (r: int)
    ensures -1 <= r < |s|
    ensures r >= 0 ==> s[r] == c && c !in s[..r]
    ensures r == -1 <==> c !in s
  {
    if s == [] then -1
    else if s[0] == c then 0
    else
      var k := FirstIndexOf(s[1..], c);
      if k == -1 then -1 else k + 1
  }

  /** `s.lastIndexOf(c)` for a one-character string: -1 when absent. */
  function LastIndexOf(s: string, c: char): (r: int)
    ensures -1 <= r < |s|
    ensures r >= 0 ==> s[r] == c && forall k :: r < k < |s| ==> s[k] != c
    ensures r == -1 <==> c !in s
  {
    if s == [] then -1
    else if s[|s| - 1] == c then |s| - 1
    else LastIndexOf(s[..|s| - 1], c)
  }

  /** `t` occurs in `s` at position `i`. */
  predicate OccursAt(s: string, t: string, i: nat) {
    i + |t| <= |s| && s[i..i + |t|] == t
  }

  /** `s.indexOf(t, from)`: the first occurrence at or after `from`, or -1. */
  function IndexOfFrom(s: string, t: string, from: nat): (r: int)
    ensures r == -1 || (from <= r && OccursAt(s, t, r))
    ensures r == -1 ==> forall i :: from <= i ==> !OccursAt(s, t, i)
    ensures r >= 0 ==> forall i :: from <= i < r ==> !OccursAt(s, t, i)
    decreases |s| + 1 - from
  {
    if from + |t| > |s| then -1
    else if s[from..from + |t|] == t then from
    else IndexOfFrom(s, t, from + 1)
  }

  /** `s.indexOf(t)`. */
  function IndexOf(s: string, t: string): int { IndexOfFrom(s, t, 0) }

  /** `s.includes(t)`. */
  predicate Includes(s: string, t: string) { IndexOf(s, t) >= 0 }

  lemma IncludesIff(s: string, t: string)
    ensures Includes(s, t) <==> exists i :: OccursAt(s, t, i)
  {
    if !Includes(s, t) {
      forall i ensures !OccursAt(s, t, i) {
        assert 0 <= i;
      }
    }
  }

  /** `s.startsWith(c)` for a one-character string. */
  predicate StartsWith(s: string, c: char) { |s| > 0 && s[0] == c }

  function TrimStart(s: string): (r: string)
    ensures |r| <= |s| && r == s[|s| - |r|..]
    ensures r != [] ==> !IsSpace(r[0])
  {
    if s != [] && IsSpace(s[0]) then TrimStart(s[1..]) else s
  }

  function TrimEnd(s: string): (r: string)
    ensures |r| <= |s| && r == s[..|r|]
    ensures r != [] ==> !IsSpace(r[|r| - 1])
  {
    if s != [] && IsSpace(s[|s| - 1]) then TrimEnd(s[..|s| - 1]) else s
  }

  /** `s.trim()`. */
  function Trim(s: string): string { TrimEnd(TrimStart(s)) }

  lemma TrimNoop(s: string)
    requires s != [] ==> !IsSpace(s[0]) && !IsSpace(s[|s| - 1])
    ensures Trim(s) == s
  {
  }

  /** Lower-casing of the ASCII letters; every other character is left as it is. */
  function LowerChar(c: char): char {
    if 'A' <= c <= 'Z' then ((c as int) + 32) as char else c
  }

  function ToLower(s: string): (r: string)
    ensures |r| == |s| && forall i :: 0 <= i < |s| ==> r[i] == LowerChar(s[i])
  {
    if s == [] then [] else [LowerChar(s[0])] + ToLower(s[1..])
  }

  /** `s.substring(0, n)`. */
  function Prefix(s: string, n: nat): (r: string)
    ensures |r| == (if n < |s| then n else |s|)
    ensures r == s[..|r|]
  {
    if n < |s| then s[..n] else s
  }

  /** Decimal rendering of a natural number, as a template literal prints it. */
  function NatToString(n: nat): (r: string)
    ensures |r| > 0 && AllDigits(r)
  {
    if n < 10 then [('0' as int + n) as char]
    else NatToString(n / 10) + [('0' as int + n % 10) as char]
  }

  lemma {:induction false} NatToStringValue(n: nat)
    ensures DigitsValue(NatToString(n)) == n
  {
    var r := NatToString(n);
    if n >= 10 {
      NatToStringValue(n / 10);
      assert r[..|r| - 1] == NatToString(n / 10);
    }
  }

  /** Splits on runs of ASCII whitespace, dropping empty tokens (how the DOM
      reads a class attribute or a class-name argument). */
  function Tokens(s: string): (r: seq<string>)
    ensures forall i :: 0 <= i < |r| ==> r[i] != [] && forall k :: 0 <= k < |r[i]| ==> !IsAsciiSpace(r[i][k])
    decreases |s|
  {
    var t := TrimAscii(s);
    if t == [] then []
    else
      var n := WordLength(t, 0);
      [t[..n]] + Tokens(t[n..])
  }

  function TrimAscii(s: string): (r: string)
    ensures |r| <= |s|
    ensures r != [] ==> !IsAsciiSpace(r[0])
  {
    if s != [] && IsAsciiSpace(s[0]) then TrimAscii(s[1..]) else s
  }

  function WordLength(s: string, i: nat): (n: nat)
    requires i <= |s|
    ensures i + n <= |s|
    ensures forall k :: i <= k < i + n ==> !IsAsciiSpace(s[k])
    decreases |s| - i
  {
    if i < |s| && !IsAsciiSpace(s[i]) then 1 + WordLength(s, i + 1) else 0
  }
}
