/** What `parsePrice` reads a match as: for every pattern, the number that
    `parseFloat(normalizeNumber(match.trim()))` gives for a piece of text
    of that pattern's shape. The separators inside a match are never
    mistaken for something else: a cents pattern reads as its digits with
    the last two as cents, an integer pattern as its digits, and the
    simple decimal as its integer part and its one or two decimals. */
module MatchReading {
  import opened Text
  import opened Models
  import opened NumberFormat
  import opened PricePatterns
  import opened PriceParsing

  // ---------------------------------------------------------------------
  // Helpers on characters and digits

  /** Deleting a class that holds every non-digit of `s` leaves its digits. */
  lemma {:induction false} RemoveLeavesDigits(s: string, cs: CharSet)
    requires NoDigitIn(cs)
    requires forall i :: 0 <= i < |s| ==> IsDigit(s[i]) || In(s[i], cs)
    ensures Remove(s, cs) == Digits(s)
  {
    if s != [] {
      var t := s[1..];
      assert forall i :: 0 <= i < |t| ==> t[i] == s[i + 1];
      RemoveLeavesDigits(t, cs);
    }
  }

  /** Every character `Filter` keeps comes from its input. */
  lemma {:induction false} FilterKeeps(s: string, cs: CharSet, keep: bool, ok: char -> bool)
    requires forall i :: 0 <= i < |s| ==> ok(s[i])
    ensures forall i :: 0 <= i < |Filter(s, cs, keep)| ==> ok(Filter(s, cs, keep)[i])
  {
    if s != [] {
      var t := s[1..];
      assert forall i :: 0 <= i < |t| ==> t[i] == s[i + 1];
      FilterKeeps(t, cs, keep, ok);
      var head := if In(s[0], cs) == keep then [s[0]] else [];
      var r := Filter(s, cs, keep);
      assert r == head + Filter(t, cs, keep);
      forall i | 0 <= i < |r| ensures ok(r[i]) {
        if i >= |head| {
          assert r[i] == Filter(t, cs, keep)[i - |head|];
        }
      }
    }
  }

  /** A text whose characters are all digits is its own digits. */
  lemma DigitsOfDigits(s: string)
    requires AllDigits(s)
    ensures Digits(s) == s
  {
    FilterNoop(s, Digit, true);
  }

  /** A text starting with a digit has at least one digit. */
  lemma DigitsNotEmpty(s: string)
    requires |s| >= 1 && IsDigit(s[0])
    ensures |Digits(s)| >= 1 && AllDigits(Digits(s))
  {
    assert Digits(s) == [s[0]] + Digits(s[1..]);
  }

  /** The digits of `g`, a separator and the digits `f`. */
  lemma DigitsOfJoin(g: string, c: char, f: string)
    requires !IsDigit(c) && AllDigits(f)
    ensures Digits(g + [c] + f) == Digits(g) + f
  {
    assert g + [c] + f == g + ([c] + f);
    FilterConcat(g, [c] + f, Digit, true);
    FilterConcat([c], f, Digit, true);
    DigitsOfDigits(f);
  }

  lemma DigitsValueSnoc(d: string, c: char)
    requires AllDigits(d) && IsDigit(c)
    ensures DigitsValue(d + [c]) == 10 * DigitsValue(d) + DigitValue(c)
  {
    assert (d + [c])[..|d|] == d;
  }

  /** Appending two digits multiplies the value by a hundred and adds theirs. */
  lemma DigitsValueCents(d: string, f: string)
    requires AllDigits(d) && |f| == 2 && AllDigits(f)
    ensures DigitsValue(d + f) == 100 * DigitsValue(d) + DigitsValue(f)
  {
    var a, b := f[0], f[1];
    assert f == [a] + [b];
    assert d + f == d + [a] + [b];
    DigitsValueSnoc(d, a);
    DigitsValueSnoc(d + [a], b);
    assert [] + [a] == [a];
    DigitsValueSnoc([], a);
    DigitsValueSnoc([a], b);
  }

  /** The facts `ReadNumber` is made of, put together. */
  lemma ReadNumberOf(m: string, n: string, v: Option<real>)
    requires Trim(m) == m && NormalizeNumber(m) == n && ParseFloat(n) == v
    ensures ReadNumber(m) == v
  {
  }

  /** A text of digits, commas and dots that starts with a digit. */
  predicate Separated(w: string) {
    |w| >= 1 && IsDigit(w[0]) && forall i :: 0 <= i < |w| ==> IsDigit(w[i]) || w[i] == ',' || w[i] == '.'
  }

  /** Such a text has no whitespace and the separator rules see it as it is. */
  lemma SeparatedCompact(w: string)
    requires Separated(w)
    ensures Remove(w, Whitespace) == w && NormalizeNumber(w) == NormalizeCompact(w)
    ensures ArabicMark !in w
  {
    NoSpacesIn(w);
    NormalizeCompactText(w);
  }

  lemma SeparatedJoin(h: string, c: char, f: string)
    requires Separated(h) && (c == ',' || c == '.') && AllDigits(f)
    ensures Separated(h + [c] + f)
  {
    JoinChars(h, c, f, c => IsDigit(c) || c == ',' || c == '.');
    assert (h + [c] + f)[0] == h[0];
  }

  // ---------------------------------------------------------------------
  // Which rule of normalizeNumber a separated number meets

  /** `c` is last at `k`. */
  lemma LastAt(w: string, k: nat, c: char)
    requires k < |w| && w[k] == c && forall j :: k < j < |w| ==> w[j] != c
    ensures LastIndexOf(w, c) == k
  {
  }

  /** A separator that only digits follow is later than any other separator. */
  lemma LastBefore(w: string, k: nat, c: char)
    requires k < |w| && w[k] != c && c in w && !IsDigit(c)
    requires forall j :: k < j < |w| ==> IsDigit(w[j])
    ensures LastIndexOf(w, c) < k
  {
  }

  /** A dot followed only by digits is the decimal point: every comma is deleted. */
  lemma DotLast(w: string, k: nat)
    requires Separated(w) && k < |w| && w[k] == '.'
    requires forall j :: k < j < |w| ==> IsDigit(w[j])
    ensures NormalizeNumber(w) == Remove(w, Single(','))
  {
    SeparatedCompact(w);
    LastAt(w, k, '.');
    if ',' in w {
      LastBefore(w, k, ',');
      NormalizeBothSeparators(w);
    } else {
      NormalizeWithoutComma(w);
      FilterNoopWithout(w, ',');
    }
  }

  /** A comma followed by one or two digits and nothing else is the decimal
      point: the dots are deleted and the comma becomes the point. */
  lemma CommaLast(w: string, k: nat)
    requires Separated(w) && k < |w| && w[k] == ',' && 1 <= |w| - k - 1 <= 2
    requires forall j :: k < j < |w| ==> IsDigit(w[j])
    ensures NormalizeNumber(w) == CommaDecimal(w)
  {
    SeparatedCompact(w);
    LastAt(w, k, ',');
    if '.' in w {
      LastBefore(w, k, '.');
      NormalizeBothSeparators(w);
    } else {
      CommaAfter(w, k);
      NormalizeCommasOnly(w);
      FilterNoopWithout(w, '.');
    }
  }

  lemma CommaAfter(w: string, k: nat)
    requires k < |w| && 1 <= |w| - k - 1 <= 2
    requires forall j :: k < j < |w| ==> IsDigit(w[j])
    ensures var after := w[k + 1..]; 1 <= |after| <= 2 && AllDigits(after)
  {
    var after := w[k + 1..];
    assert forall j :: 0 <= j < |after| ==> after[j] == w[k + 1 + j];
  }

  /** Commas only, with at least three digits after the last one: every
      comma is a thousands separator. */
  lemma CommasGrouping(w: string)
    requires Separated(w) && '.' !in w && |w| >= 3
    requires forall j :: |w| - 3 <= j < |w| ==> IsDigit(w[j])
    ensures NormalizeNumber(w) == Digits(w)
  {
    SeparatedCompact(w);
    RemoveLeavesDigits(w, Single(','));
    if ',' in w {
      assert LastIndexOf(w, ',') < |w| - 3;
      NormalizeCommasOnly(w);
    } else {
      NormalizeWithoutComma(w);
      FilterNoopWithout(w, ',');
    }
  }

  // ---------------------------------------------------------------------
  // The three cents patterns

  /** A cents match split into its grouped part, its mark and its cents. */
  lemma CentsParts(m: string, sep: CharSet, mark: char)
    requires NoDigitIn(sep) && GroupedWithCents(m, sep, Single(mark))
    ensures var g := m[..|m| - 3];
      m == g + [mark] + m[|m| - 2..] && |g| >= 1 && IsDigit(g[0]) &&
      IsDigit(m[0]) && IsDigit(m[|m| - 1]) && AllDigits(m[|m| - 2..]) &&
      forall i :: 0 <= i < |g| ==> IsDigit(g[i]) || In(g[i], sep)
  {
    var g := m[..|m| - 3];
    GroupedShape(g, sep);
    SplitAt(m, |m| - 3);
    assert m[|m| - 1] == m[|m| - 2..][1];
  }

  /** The integer part of a cents match with its whitespace deleted: digits
      and the one separator `c`, with the same digits. */
  lemma SpacesRemoved(g: string, sep: CharSet, c: char)
    requires |g| >= 1 && IsDigit(g[0])
    requires (sep == CommaOrSpace && c == ',') || (sep == DotOrSpace && c == '.')
    requires forall i :: 0 <= i < |g| ==> IsDigit(g[i]) || In(g[i], sep)
    ensures var h := Remove(g, Whitespace);
      |h| >= 1 && IsDigit(h[0]) && Digits(h) == Digits(g) &&
      forall i :: 0 <= i < |h| ==> IsDigit(h[i]) || h[i] == c
  {
    var h := Remove(g, Whitespace);
    FilterKeeps(g, Whitespace, false, c => IsDigit(c) || In(c, sep));
    assert forall i :: 0 <= i < |h| ==> !IsSpace(h[i]);
    assert h == [g[0]] + Remove(g[1..], Whitespace);
    DigitsOfRemove(g, Whitespace);
  }

  /** The whitespace of a cents match lies in its integer part. */
  lemma CentsWithoutSpaces(g: string, c: char, f: string)
    requires !IsSpace(c) && AllDigits(f) && |g| >= 1 && IsDigit(g[0])
    ensures NormalizeNumber(g + [c] + f) == NormalizeNumber(Remove(g, Whitespace) + [c] + f)
  {
    RemoveJoin(g, c, f, Whitespace);
    assert Remove(g, Whitespace) == [g[0]] + Remove(g[1..], Whitespace);
    NormalizeIgnoresWhitespace(g + [c] + f);
  }

  /** The layout of `h + [c] + f`. */
  lemma JoinLayout(h: string, c: char, f: string)
    requires AllDigits(f)
    ensures var w := h + [c] + f;
      |h| < |w| && w[|h|] == c && |w| - |h| - 1 == |f| && forall j :: |h| < j < |w| ==> IsDigit(w[j])
  {
    var w := h + [c] + f;
    assert forall j :: |h| < j < |w| ==> w[j] == f[j - |h| - 1];
  }

  /** The cents form with commas and spaces deleted already. */
  lemma DotCentsCompact(h: string, f: string)
    requires |h| >= 1 && IsDigit(h[0]) && |f| == 2 && AllDigits(f)
    requires forall i :: 0 <= i < |h| ==> IsDigit(h[i]) || h[i] == ','
    ensures NormalizeNumber(h + "." + f) == Digits(h) + "." + f
  {
    SeparatedJoin(h, '.', f);
    JoinLayout(h, '.', f);
    DotLast(h + "." + f, |h|);
    RemoveJoin(h, '.', f, Single(','));
    RemoveLeavesDigits(h, Single(','));
  }

  lemma CommaCentsCompact(h: string, f: string)
    requires |h| >= 1 && IsDigit(h[0]) && |f| == 2 && AllDigits(f)
    requires forall i :: 0 <= i < |h| ==> IsDigit(h[i]) || h[i] == '.'
    ensures NormalizeNumber(h + "," + f) == Digits(h) + "." + f
  {
    SeparatedJoin(h, ',', f);
    JoinLayout(h, ',', f);
    CommaLast(h + "," + f, |h|);
    RemoveLeavesDigits(h, Single('.'));
    DigitsNotEmpty(h);
    EuropeanRewrite(h, Digits(h), f);
  }

  /** The common tail of the three cents proofs: `d.f` with two cents reads
      as the digits `d + f` divided by a hundred. */
  lemma CentsValue(m: string, g: string, c: char, f: string)
    requires |g| >= 1 && IsDigit(g[0]) && |f| == 2 && AllDigits(f) && !IsDigit(c)
    requires m == g + [c] + f && NormalizeNumber(m) == Digits(g) + "." + f
    requires !IsSpace(m[0]) && !IsSpace(m[|m| - 1])
    ensures ReadNumber(m) == Some(DigitsValue(Digits(m)) as real / 100.0)
  {
    TrimNoop(m);
    CentsRead(g, c, f);
    ReadNumberOf(m, Digits(g) + "." + f, Some(DigitsValue(Digits(m)) as real / 100.0));
  }

  lemma CentsRead(g: string, c: char, f: string)
    requires |g| >= 1 && IsDigit(g[0]) && |f| == 2 && AllDigits(f) && !IsDigit(c)
    ensures ParseFloat(Digits(g) + "." + f) == Some(DigitsValue(Digits(g + [c] + f)) as real / 100.0)
  {
    DigitsNotEmpty(g);
    CentsParsed(Digits(g), f);
    DigitsOfJoin(g, c, f);
  }

  lemma CentsParsed(d: string, f: string)
    requires |d| >= 1 && AllDigits(d) && |f| == 2 && AllDigits(f)
    ensures ParseFloat(d + "." + f) == Some(DigitsValue(d + f) as real / 100.0)
  {
    ParseDecimal(d, f);
    CentsDecimalValue(d, f);
  }

  lemma CentsDecimalValue(d: string, f: string)
    requires AllDigits(d) && |f| == 2 && AllDigits(f)
    ensures DecimalValue(d, f) == DigitsValue(d + f) as real / 100.0
  {
    DecimalValueCents(d, f);
    DigitsValueCents(d, f);
    CentsArith(DigitsValue(d), DigitsValue(f), DigitsValue(d + f));
  }

  lemma CentsArith(a: nat, b: nat, v: nat)
    requires v == 100 * a + b
    ensures a as real + b as real / 100.0 == v as real / 100.0
  {
  }

  lemma NormalizeDotCents(g: string, f: string)
    requires |g| >= 1 && IsDigit(g[0]) && |f| == 2 && AllDigits(f)
    requires forall i :: 0 <= i < |g| ==> IsDigit(g[i]) || In(g[i], CommaOrSpace)
    ensures NormalizeNumber(g + "." + f) == Digits(g) + "." + f
  {
    SpacesRemoved(g, CommaOrSpace, ',');
    CentsWithoutSpaces(g, '.', f);
    DotCentsCompact(Remove(g, Whitespace), f);
  }

  lemma NormalizeCommaCents(g: string, f: string)
    requires |g| >= 1 && IsDigit(g[0]) && |f| == 2 && AllDigits(f)
    requires forall i :: 0 <= i < |g| ==> IsDigit(g[i]) || In(g[i], DotOrSpace)
    ensures NormalizeNumber(g + "," + f) == Digits(g) + "." + f
  {
    SpacesRemoved(g, DotOrSpace, '.');
    CentsWithoutSpaces(g, ',', f);
    CommaCentsCompact(Remove(g, Whitespace), f);
  }

  lemma NormalizeArabicCents(g: string, f: string)
    requires |g| >= 1 && IsDigit(g[0]) && |f| == 2 && AllDigits(f)
    requires forall i :: 0 <= i < |g| ==> IsDigit(g[i]) || In(g[i], CommaOrSpace)
    ensures NormalizeNumber(g + [ArabicMark] + f) == Digits(g) + "." + f
  {
    SpacesRemoved(g, CommaOrSpace, ',');
    CentsWithoutSpaces(g, ArabicMark, f);
    var h := Remove(g, Whitespace);
    RemoveLeavesDigits(h, CommaOrDot);
    NormalizeArabicOf(h, Digits(h), f);
  }

  /** `\d{1,3}(?:[,\s]\d{3})*\.\d{2}` reads as its digits, the last two the cents. */
  lemma DotCentsValue(m: string)
    requires Form(DotCents, m)
    ensures ReadNumber(m) == Some(DigitsValue(Digits(m)) as real / 100.0)
  {
    CentsParts(m, CommaOrSpace, '.');
    var g, f := m[..|m| - 3], m[|m| - 2..];
    NormalizeDotCents(g, f);
    CentsValue(m, g, '.', f);
  }

  /** `\d{1,3}(?:[,\s]\d{3})*٫\d{2}` reads as its digits, the last two the cents. */
  lemma ArabicCentsValue(m: string)
    requires Form(ArabicCents, m)
    ensures ReadNumber(m) == Some(DigitsValue(Digits(m)) as real / 100.0)
  {
    CentsParts(m, CommaOrSpace, ArabicMark);
    var g, f := m[..|m| - 3], m[|m| - 2..];
    NormalizeArabicCents(g, f);
    CentsValue(m, g, ArabicMark, f);
  }

  /** `\d{1,3}(?:[\.\s]\d{3})*,\d{2}` reads as its digits, the last two the cents. */
  lemma CommaCentsValue(m: string)
    requires Form(CommaCents, m)
    ensures ReadNumber(m) == Some(DigitsValue(Digits(m)) as real / 100.0)
  {
    CentsParts(m, DotOrSpace, ',');
    var g, f := m[..|m| - 3], m[|m| - 2..];
    NormalizeCommaCents(g, f);
    CentsValue(m, g, ',', f);
  }

  // ---------------------------------------------------------------------
  // The integer patterns

  /** `\d{4,}` and `\d+` read as their digits. */
  lemma IntegerValue(m: string)
    requires Form(LongInt, m) || Form(AnyInt, m)
    ensures ReadNumber(m) == Some(DigitsValue(m) as real)
  {
    assert |m| >= 1 && AllDigits(m);
    TrimNoop(m);
    NormalizeInteger(m);
    ReadNumberOf(m, m, Some(DigitsValue(m) as real));
  }

  /** A thousands match without a dot: digits, commas and whitespace, ending
      in a group of three digits. */
  lemma ThousandsShape(m: string)
    requires Form(ThousandsInt, m) && '.' !in m
    ensures |m| >= 5 && IsDigit(m[0]) && IsDigit(m[|m| - 1]) && AllDigits(m[|m| - 3..])
    ensures forall i :: 0 <= i < |m| ==> IsDigit(m[i]) || In(m[i], CommaOrSpace)
  {
    GroupedShape(m, SeparatorOrSpace);
  }

  /** Deleting the whitespace of the head keeps the three digits at the end. */
  lemma ThousandsTail(m: string)
    requires |m| >= 3 && AllDigits(m[|m| - 3..])
    ensures var w := Remove(m, Whitespace);
      |w| >= 3 && forall j :: |w| - 3 <= j < |w| ==> IsDigit(w[j])
  {
    var t := m[|m| - 3..];
    var h := Remove(m[..|m| - 3], Whitespace);
    assert m == m[..|m| - 3] + t;
    RemoveAppendKept(m[..|m| - 3], t, Whitespace);
    var w := h + t;
    assert forall j :: |w| - 3 <= j < |w| ==> w[j] == t[j - |h|];
  }

  /** Digits and commas, starting with a digit. */
  lemma CommasSeparated(w: string)
    requires |w| >= 1 && IsDigit(w[0]) && forall i :: 0 <= i < |w| ==> IsDigit(w[i]) || w[i] == ','
    ensures Separated(w) && '.' !in w
  {
  }

  /** `\d{1,3}(?:[,\s.]\d{3})+` with commas and spaces only between the
      groups reads as its digits: the comma is a thousands separator
      because three digits always follow the last one. */
  lemma ThousandsValue(m: string)
    requires Form(ThousandsInt, m) && '.' !in m
    ensures ReadNumber(m) == Some(DigitsValue(Digits(m)) as real)
  {
    ThousandsShape(m);
    TrimNoop(m);
    SpacesRemoved(m, CommaOrSpace, ',');
    ThousandsTail(m);
    var w := Remove(m, Whitespace);
    CommasSeparated(w);
    NormalizeIgnoresWhitespace(m);
    CommasGrouping(w);
    ThousandsRead(m, w);
  }

  lemma ThousandsRead(m: string, w: string)
    requires Trim(m) == m && NormalizeNumber(m) == Digits(w) && Digits(w) == Digits(m)
    requires |m| >= 1 && IsDigit(m[0])
    ensures ReadNumber(m) == Some(DigitsValue(Digits(m)) as real)
  {
    DigitsNotEmpty(m);
    ParseInteger(Digits(m));
    ReadNumberOf(m, Digits(m), Some(DigitsValue(Digits(m)) as real));
  }

  // ---------------------------------------------------------------------
  // The simple decimal

  /** `\d+[\.\,٫]\d{1,2}` split at its mark. */
  lemma SimpleDecimalParts(m: string)
    requires Form(SimpleDecimal, m)
    ensures var n := DigitRun(m, 0);
      n < |m| && m == m[..n] + [m[n]] + m[n + 1..] && AllDigits(m[..n]) && AllDigits(m[n + 1..]) &&
      |m[..n]| >= 1 && 1 <= |m[n + 1..]| <= 2 && IsDecimalMark(m[n]) &&
      IsDigit(m[0]) && IsDigit(m[|m| - 1]) &&
      forall i :: 0 <= i < |m| && i != n ==> IsDigit(m[i])
  {
    var n := DigitRun(m, 0);
    SplitAt(m, n);
    assert m[|m| - 1] == m[n + 1..][|m| - 1 - (n + 1)];
    forall i | n < i < |m| ensures IsDigit(m[i]) {
      assert m[i] == m[n + 1..][i - (n + 1)];
    }
  }

  /** The normalised simple decimal: its integer part, a point, its decimals. */
  lemma NormalizeSimpleDecimal(m: string)
    requires Form(SimpleDecimal, m)
    ensures var n := DigitRun(m, 0);
      NormalizeNumber(m) == m[..n] + "." + m[n + 1..]
  {
    SimpleDecimalParts(m);
    var n := DigitRun(m, 0);
    var d, f := m[..n], m[n + 1..];
    if m[n] == ArabicMark {
      FilterNoop(d, CommaOrDot, false);
      NormalizeArabicOf(d, d, f);
    } else {
      assert Separated(m);
      if m[n] == '.' {
        DotLast(m, n);
        FilterNoopWithout(m, ',');
      } else {
        CommaLast(m, n);
        FilterNoopWithout(m, '.');
        CommaToPoint(d, f);
      }
    }
  }

  /** A simple decimal reads as its integer part plus its decimals, whichever
      of the three marks it uses. */
  lemma SimpleDecimalValue(m: string)
    requires Form(SimpleDecimal, m)
    ensures var n := DigitRun(m, 0);
      AllDigits(m[..n]) && AllDigits(m[n + 1..]) &&
      ReadNumber(m) == Some(DecimalValue(m[..n], m[n + 1..]))
  {
    SimpleDecimalParts(m);
    var n := DigitRun(m, 0);
    var d, f := m[..n], m[n + 1..];
    TrimNoop(m);
    NormalizeSimpleDecimal(m);
    ParseDecimal(d, f);
    ReadNumberOf(m, d + "." + f, Some(DecimalValue(d, f)));
  }
}
