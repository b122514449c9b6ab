/** Number normalisation of the price engine: Arabic-Indic digits, the
    separator-disambiguation heuristic applied to one matched number, and
    the decimal reading that `parseFloat` gives the normalised text. */
module NumberFormat {
  import opened Text
  import opened Models

  /** U+066B ARABIC DECIMAL SEPARATOR. */
  const ArabicMark: char := '\U{066B}'

  /** U+0660 .. U+0669, the Arabic-Indic digits. */
  predicate IsArabicDigit(c: char) { '\U{0660}' <= c <= '\U{0669}' }

  function ArabicDigit(k: nat): char
    requires k < 10
  {
    ((0x0660 + k) as char)
  }

  function WesternDigit(k: nat): char
    requires k < 10
  {
    (('0' as int + k) as char)
  }

  /** The Western digit for an Arabic-Indic one; every other character is kept. */
  function ToWestern(c: char): char {
    if IsArabicDigit(c) then WesternDigit((c as int) - 0x0660) else c
  }

  /** The text with every Arabic-Indic digit replaced by its Western digit. */
  function Westernize(s: string): (r: string)
    ensures |r| == |s|
  {
    seq(|s|, i requires 0 <= i < |s| => ToWestern(s[i]))
  }

  /** `convertArabicNumerals`: one global replacement per entry of the
      ten-entry digit table, in table order. */
  method ConvertArabicNumerals(text: string) returns (result: string)
    ensures |result| == |text|
    ensures forall i :: 0 <= i < |text| ==>
      result[i] == (if IsArabicDigit(text[i]) then WesternDigit((text[i] as int) - 0x0660) else text[i])
    ensures result == Westernize(text)
  {
    result := text;
    var k := 0;
    while k < 10
      invariant 0 <= k <= 10
      invariant |result| == |text|
      invariant forall i :: 0 <= i < |text| ==>
        result[i] == (if IsArabicDigit(text[i]) && (text[i] as int) - 0x0660 < k then ToWestern(text[i]) else text[i])
    {
      result := ReplaceAll(result, ArabicDigit(k), WesternDigit(k));
      k := k + 1;
    }
  }

  /** Converting twice changes nothing more: Western digits are never Arabic-Indic. */
  lemma WesternizeIdempotent(s: string)
    ensures Westernize(Westernize(s)) == Westernize(s)
  {
    var w := Westernize(s);
    assert forall i :: 0 <= i < |w| ==> !IsArabicDigit(w[i]);
  }

  // ---------------------------------------------------------------------
  // The anchored patterns tested by normalizeNumber.

  /** `\d{1,3}(sep\d{3})*` matched against the whole of `s`, where `sep` is a
      character class. */
  predicate Grouped(s: string, sep: CharSet)
    decreases |s|
  {
    (1 <= |s| <= 3 && AllDigits(s)) ||
    (|s| >= 5 && In(s[|s| - 4], sep) && AllDigits(s[|s| - 3..]) && Grouped(s[..|s| - 4], sep))
  }

  /** `s` ends in the separator `c` followed by exactly two digits, and what
      comes before is grouped by `sep`. */
  predicate GroupedWithCents(s: string, sep: CharSet, c: CharSet) {
    |s| >= 4 && In(s[|s| - 3], c) && AllDigits(s[|s| - 2..]) && Grouped(s[..|s| - 3], sep)
  }

  /** `/^\d{1,3}(\.\d{3})*,\d{2}$/` */
  predicate EuropeanForm(s: string) { GroupedWithCents(s, Single('.'), Single(',')) }

  /** `/^\d{1,3}(,\d{3})*(\.\d{2})?$/` */
  predicate UsForm(s: string) { Grouped(s, Single(',')) || GroupedWithCents(s, Single(','), Single('.')) }

  /** `/^\d{1,3}(\s\d{3})*([,\.]\d{2})?$/` */
  predicate SpaceForm(s: string) { Grouped(s, Whitespace) || GroupedWithCents(s, Whitespace, CommaOrDot) }

  /** `normalizeNumber`: the empty string reads as "0"; otherwise whitespace
      is deleted and the first applicable rule rewrites the separators. */
  function NormalizeNumber(s: string): string {
    if s == [] then "0" else NormalizeCompact(Remove(s, Whitespace))
  }

  /** The separator rules, tried in the fixed order of the source. */
  function NormalizeCompact(w: string): string {
    if ArabicMark in w then ArabicRule(w)
    else if EuropeanForm(w) then CommaDecimal(w)
    else if UsForm(w) then Remove(w, Single(','))
    else if SpaceForm(w) then ReplaceFirst(Remove(w, Whitespace), ',', '.')
    else if ',' in w && '.' in w then MixedRule(w)
    else if ',' in w then LoneCommaRule(w)
    else w
  }

  /** `split("٫")` yields two parts exactly when the mark occurs once; the
      separators before it are then deleted and it becomes the point. */
  function ArabicRule(w: string): string
    requires ArabicMark in w
  {
    var p := FirstIndexOf(w, ArabicMark);
    if ArabicMark !in w[p + 1..] then Remove(w[..p], CommaOrDot) + "." + w[p + 1..] else w
  }

  /** Dots are thousands separators and the first comma is the point. */
  function CommaDecimal(w: string): string {
    ReplaceFirst(Remove(w, Single('.')), ',', '.')
  }

  /** Both separators present: the one that comes last is the point. */
  function MixedRule(w: string): string {
    if LastIndexOf(w, '.') > LastIndexOf(w, ',') then Remove(w, Single(',')) else CommaDecimal(w)
  }

  /** Commas only: one or two digits after the last comma make it decimal. */
  function LoneCommaRule(w: string): string
    requires ',' in w
  {
    var after := w[LastIndexOf(w, ',') + 1..];
    if |after| <= 2 && |after| >= 1 && AllDigits(after) then ReplaceFirst(w, ',', '.')
    else Remove(w, Single(','))
  }

  // ---------------------------------------------------------------------
  // parseFloat

  function FractionValue(d: string): real
    requires AllDigits(d)
  {
    if d == [] then 0.0 else (DigitValue(d[0]) as real + FractionValue(d[1..])) / 10.0
  }

  /** The value of the digits `d`, a point and the digits `f`. */
  function DecimalValue(d: string, f: string): real
    requires AllDigits(d) && AllDigits(f)
  {
    DigitsValue(d) as real + FractionValue(f)
  }

  /** `parseFloat` on text made of digits and the separators `.`, `,` and
      `٫`: the longest prefix of the form `digits [. digits]` with at least
      one digit; `None` stands for NaN. */
  function ParseFloat(s: string): Option<real>
  {
    var n := DigitRun(s, 0);
    if n < |s| && s[n] == '.' then
      var m := DigitRun(s, n + 1);
      if n + m == 0 then None
      else Some(DecimalValue(s[..n], s[n + 1..n + 1 + m]))
    else if n == 0 then None
    else Some(DigitsValue(s[..n]) as real)
  }

  // ---------------------------------------------------------------------
  // Facts about the patterns

  lemma {:induction false} GroupedShape(s: string, sep: CharSet)
    requires Grouped(s, sep)
    ensures |s| >= 1 && IsDigit(s[0]) && IsDigit(s[|s| - 1])
    ensures forall i :: 0 <= i < |s| ==> IsDigit(s[i]) || In(s[i], sep)
    decreases |s|
  {
    if !(1 <= |s| <= 3 && AllDigits(s)) {
      var h := s[..|s| - 4];
      GroupedShape(h, sep);
      forall i | 0 <= i < |s| ensures IsDigit(s[i]) || In(s[i], sep) {
        if i < |s| - 4 {
          assert s[i] == h[i];
        } else if i > |s| - 4 {
          assert s[i] == s[|s| - 3..][i - (|s| - 3)];
        }
      }
      assert s[|s| - 1] == s[|s| - 3..][2];
      assert s[0] == h[0];
    }
  }

  /** After whitespace is deleted, a space-grouped number can only be a
      plain group of up to three digits. */
  lemma {:induction false} GroupedWithoutSpaces(s: string)
    requires Grouped(s, Whitespace)
    requires forall i :: 0 <= i < |s| ==> !IsSpace(s[i])
    ensures 1 <= |s| <= 3 && AllDigits(s)
  {
  }

  /** The space rule can never fire: once whitespace has been deleted, every
      string of the space form is already of the European or the US form. */
  lemma SpaceRuleUnreachable(w: string)
    requires forall i :: 0 <= i < |w| ==> !IsSpace(w[i])
    ensures SpaceForm(w) ==> EuropeanForm(w) || UsForm(w)
  {
    if Grouped(w, Whitespace) {
      GroupedWithoutSpaces(w);
      assert Grouped(w, Single(','));
    } else if GroupedWithCents(w, Whitespace, CommaOrDot) {
      var h := w[..|w| - 3];
      GroupedWithoutSpaces(h);
      assert Grouped(h, Single(',')) && Grouped(h, Single('.'));
    }
  }

  lemma NoSpacesAfterRemove(s: string)
    ensures forall i :: 0 <= i < |Remove(s, Whitespace)| ==> !IsSpace(Remove(s, Whitespace)[i])
  {
    var w := Remove(s, Whitespace);
    assert forall i :: 0 <= i < |w| ==> In(w[i], Whitespace) == false;
  }

  lemma FilterNoopWithout(s: string, c: char)
    requires c !in s
    ensures Remove(s, Single(c)) == s
  {
    FilterNoop(s, Single(c), false);
  }

  lemma SpacesNoop(s: string)
    requires forall i :: 0 <= i < |s| ==> !IsSpace(s[i])
    ensures Remove(s, Whitespace) == s
  {
    FilterNoop(s, Whitespace, false);
  }

  // ---------------------------------------------------------------------
  // What normalizeNumber does, rule by rule

  /** Whitespace anywhere in the text is ignored. */
  lemma NormalizeIgnoresWhitespace(s: string)
    requires Remove(s, Whitespace) != []
    ensures NormalizeNumber(s) == NormalizeNumber(Remove(s, Whitespace))
  {
    NoSpacesAfterRemove(s);
    SpacesNoop(Remove(s, Whitespace));
  }

  /** Text made only of whitespace is not the empty string, so it passes the
      `"0"` test and comes out empty once its whitespace is deleted. */
  lemma NormalizeWhitespaceOnly(s: string)
    requires s != [] && Remove(s, Whitespace) == []
    ensures NormalizeNumber(s) == ""
  {
  }

  /** Without a comma or an Arabic mark, the text comes back with only its
      whitespace deleted (dots are left for parseFloat to read). */
  lemma NormalizeWithoutComma(s: string)
    requires s != []
    requires ',' !in Remove(s, Whitespace) && ArabicMark !in Remove(s, Whitespace)
    ensures NormalizeNumber(s) == Remove(s, Whitespace)
  {
    var w := Remove(s, Whitespace);
    NoSpacesAfterRemove(s);
    FilterNoopWithout(w, ',');
    SpacesNoop(w);
    ReplaceFirstAbsent(w, ',', '.');
  }

  lemma {:induction false} LastSeparatorOfEuropean(w: string)
    requires EuropeanForm(w)
    ensures LastIndexOf(w, ',') == |w| - 3
    ensures LastIndexOf(w, '.') < |w| - 3
  {
    forall k | |w| - 3 < k < |w| ensures IsDigit(w[k]) {
      assert w[k] == w[|w| - 2..][k - (|w| - 2)];
    }
  }

  lemma {:induction false} LastSeparatorOfUsCents(w: string)
    requires GroupedWithCents(w, Single(','), Single('.'))
    ensures LastIndexOf(w, '.') == |w| - 3
    ensures LastIndexOf(w, ',') < |w| - 3
  {
    forall k | |w| - 3 < k < |w| ensures IsDigit(w[k]) {
      assert w[k] == w[|w| - 2..][k - (|w| - 2)];
    }
  }

  lemma {:induction false} LastSeparatorOfUsGrouped(w: string)
    requires Grouped(w, Single(',')) && ',' in w
    ensures LastIndexOf(w, ',') == |w| - 4
  {
    forall k | |w| - 4 < k < |w| ensures w[k] != ',' {
      assert w[k] == w[|w| - 3..][k - (|w| - 3)];
    }
  }

  /** The commas-only case when the European rule fires. */
  lemma CommasOnlyEuropean(w: string)
    requires EuropeanForm(w) && '.' !in w
    ensures CommaDecimal(w) == LoneCommaRule(w)
  {
    LastSeparatorOfEuropean(w);
    FilterNoopWithout(w, '.');
    assert w[|w| - 2..] == w[LastIndexOf(w, ',') + 1..];
  }

  /** The commas-only case when the US rule fires. */
  lemma CommasOnlyUs(w: string)
    requires UsForm(w) && '.' !in w && ',' in w
    ensures Remove(w, Single(',')) == LoneCommaRule(w)
  {
    if !GroupedWithCents(w, Single(','), Single('.')) {
      LastSeparatorOfUsGrouped(w);
    }
  }

  /** An Arabic mark that occurs once is the decimal point: the commas and
      dots before it are deleted and what follows it is kept. */
  lemma NormalizeArabicOnce(s: string, a: string, b: string)
    requires Remove(s, Whitespace) == a + [ArabicMark] + b
    requires ArabicMark !in a && ArabicMark !in b
    ensures NormalizeNumber(s) == Remove(a, CommaOrDot) + "." + b
  {
    var w := a + [ArabicMark] + b;
    assert w[|a|] == ArabicMark;
    assert w[..|a|] == a && w[|a| + 1..] == b;
    assert FirstIndexOf(w, ArabicMark) == |a|;
  }

  /** An Arabic mark that occurs more than once splits into more than two
      parts, so no rule rewrites the text: only its whitespace goes. */
  lemma NormalizeArabicRepeated(s: string, a: string, b: string, c: string)
    requires Remove(s, Whitespace) == a + [ArabicMark] + b + [ArabicMark] + c
    ensures NormalizeNumber(s) == Remove(s, Whitespace)
  {
    var w := a + [ArabicMark] + b + [ArabicMark] + c;
    assert w[|a|] == ArabicMark;
    var p := FirstIndexOf(w, ArabicMark);
    assert p <= |a|;
    assert w[p + 1..][|a| + |b| - p] == ArabicMark;
  }

  /** Commas but no dot: whatever rule fires, the last comma is a decimal
      point exactly when one or two digits follow it, and the first comma
      then becomes the point; otherwise every comma is deleted. */
  lemma NormalizeCommasOnly(s: string)
    requires s != []
    requires ',' in Remove(s, Whitespace) && '.' !in Remove(s, Whitespace)
    requires ArabicMark !in Remove(s, Whitespace)
    ensures var w := Remove(s, Whitespace);
      var after := w[LastIndexOf(w, ',') + 1..];
      NormalizeNumber(s) ==
        if 1 <= |after| <= 2 && AllDigits(after) then ReplaceFirst(w, ',', '.') else Remove(w, Single(','))
  {
    var w := Remove(s, Whitespace);
    assert NormalizeNumber(s) == NormalizeCompact(w);
    NoSpacesAfterRemove(s);
    SpaceRuleUnreachable(w);
    if EuropeanForm(w) {
      CommasOnlyEuropean(w);
    } else if UsForm(w) {
      CommasOnlyUs(w);
    }
  }

  /** The both-separators case when the US rule fires. */
  lemma BothUs(w: string)
    requires UsForm(w) && '.' in w && ',' in w
    ensures Remove(w, Single(',')) == MixedRule(w)
  {
    if Grouped(w, Single(',')) {
      GroupedShape(w, Single(','));
      assert false;
    }
    LastSeparatorOfUsCents(w);
  }

  /** Both a comma and a dot: whatever rule fires, the separator that comes
      last is the decimal point. A dot last deletes every comma; a comma
      last deletes every dot and turns the first comma into the point. */
  lemma NormalizeBothSeparators(s: string)
    requires s != []
    requires ',' in Remove(s, Whitespace) && '.' in Remove(s, Whitespace)
    requires ArabicMark !in Remove(s, Whitespace)
    ensures var w := Remove(s, Whitespace);
      NormalizeNumber(s) ==
        if LastIndexOf(w, '.') > LastIndexOf(w, ',') then Remove(w, Single(','))
        else ReplaceFirst(Remove(w, Single('.')), ',', '.')
  {
    var w := Remove(s, Whitespace);
    assert NormalizeNumber(s) == NormalizeCompact(w);
    NoSpacesAfterRemove(s);
    SpaceRuleUnreachable(w);
    if EuropeanForm(w) {
      LastSeparatorOfEuropean(w);
    } else if UsForm(w) {
      BothUs(w);
    }
  }

  /** Normalisation only deletes or rewrites separators and whitespace: it
      never adds, drops or reorders a digit of non-empty text. */
  lemma NormalizeKeepsDigits(s: string)
    requires s != []
    ensures Digits(NormalizeNumber(s)) == Digits(s)
  {
    var w := Remove(s, Whitespace);
    DigitsOfRemove(s, Whitespace);
    DigitsOfRemove(w, Single('.'));
    DigitsOfRemove(w, Single(','));
    DigitsOfRemove(w, Whitespace);
    DigitsOfReplaceFirst(w, ',', '.');
    DigitsOfReplaceFirst(Remove(w, Single('.')), ',', '.');
    DigitsOfReplaceFirst(Remove(w, Whitespace), ',', '.');
    if ArabicMark in w {
      DigitsOfArabicRule(w);
    }
  }

  lemma DigitsOfArabicRule(w: string)
    requires ArabicMark in w
    ensures Digits(ArabicRule(w)) == Digits(w)
  {
    var p := FirstIndexOf(w, ArabicMark);
    if ArabicMark !in w[p + 1..] {
      SplitAt(w, p);
      FilterConcat(w[..p] + [ArabicMark], w[p + 1..], Digit, true);
      FilterConcat(w[..p], [ArabicMark], Digit, true);
      DigitsOfRemove(w[..p], CommaOrDot);
      FilterConcat(Remove(w[..p], CommaOrDot) + ".", w[p + 1..], Digit, true);
      FilterConcat(Remove(w[..p], CommaOrDot), ".", Digit, true);
    }
  }

  // ---------------------------------------------------------------------
  // Canonical forms: every supported way of writing a price normalises to
  // the same plain decimal.

  /** The digits `d` with `sep` between groups of three, counted from the right. */
  function Group(d: string, sep: char): (r: string)
    requires |d| >= 1 && AllDigits(d)
    decreases |d|
  {
    if |d| <= 3 then d else Group(d[..|d| - 3], sep) + [sep] + d[|d| - 3..]
  }

  datatype Style =
    | UsStyle            // 1,234.56
    | EuropeanStyle      // 1.234,56
    | ArabicStyle        // 1,234٫56
    | ArabicPlainStyle   // 1234٫56
    | SpaceStyle         // 1 234.56
    | PlainStyle         // 1234.56

  /** A price with integer digits `d` and two decimals `f`, written in `style`. */
  function Render(style: Style, d: string, f: string): string
    requires |d| >= 1 && AllDigits(d) && |f| == 2 && AllDigits(f)
  {
    match style
    case UsStyle => Group(d, ',') + "." + f
    case EuropeanStyle => Group(d, '.') + "," + f
    case ArabicStyle => Group(d, ',') + [ArabicMark] + f
    case ArabicPlainStyle => d + [ArabicMark] + f
    case SpaceStyle => Group(d, ' ') + "." + f
    case PlainStyle => d + "." + f
  }

  /** The rendering is of the grouped form and uses only digits and `sep`. */
  lemma {:induction false} GroupShape(d: string, sep: char, cs: CharSet)
    requires |d| >= 1 && AllDigits(d)
    requires In(sep, cs)
    ensures Grouped(Group(d, sep), cs)
    ensures forall i :: 0 <= i < |Group(d, sep)| ==> IsDigit(Group(d, sep)[i]) || Group(d, sep)[i] == sep
    decreases |d|
  {
    var g := Group(d, sep);
    if |d| > 3 {
      var h := d[..|d| - 3];
      var t := d[|d| - 3..];
      GroupShape(h, sep, cs);
      var gh := Group(h, sep);
      assert g == gh + [sep] + t;
      assert g[..|g| - 4] == gh;
      assert g[|g| - 3..] == t;
      forall i | 0 <= i < |g| ensures IsDigit(g[i]) || g[i] == sep {
        if i < |gh| {
          assert g[i] == gh[i];
        } else if i > |gh| {
          assert g[i] == t[i - |gh| - 1];
        }
      }
    }
  }

  /** Deleting the separators gives back the digits. */
  lemma {:induction false} GroupRemove(d: string, sep: char, cs: CharSet)
    requires |d| >= 1 && AllDigits(d)
    requires In(sep, cs)
    requires forall c :: In(c, cs) ==> !IsDigit(c)
    ensures Remove(Group(d, sep), cs) == d
    decreases |d|
  {
    if |d| <= 3 {
      FilterNoop(d, cs, false);
    } else {
      var h := d[..|d| - 3];
      var t := d[|d| - 3..];
      GroupRemove(h, sep, cs);
      var gh := Group(h, sep);
      FilterConcat(gh + [sep], t, cs, false);
      FilterConcat(gh, [sep], cs, false);
      FilterNoop(t, cs, false);
      assert Remove([sep], cs) == [];
      assert d == h + t;
    }
  }

  lemma {:induction false} DigitRunOver(s: string, i: nat, j: nat)
    requires i <= j <= |s|
    requires forall k :: i <= k < j ==> IsDigit(s[k])
    requires j == |s| || !IsDigit(s[j])
    ensures DigitRun(s, i) == j - i
    decreases j - i
  {
    if i < j {
      DigitRunOver(s, i + 1, j);
    }
  }

  /** The plain decimal `d.f` reads as its value. */
  lemma ParsePlainDecimal(d: string, f: string)
    requires |d| >= 1 && AllDigits(d) && |f| == 2 && AllDigits(f)
    ensures ParseFloat(d + "." + f) == Some(DigitsValue(d) as real + DigitsValue(f) as real / 100.0)
  {
    DecimalLayout(d, f);
    ParseDecimal(d, f);
    DecimalValueCents(d, f);
  }

  lemma DecimalValueCents(d: string, f: string)
    requires AllDigits(d) && |f| == 2 && AllDigits(f)
    ensures DecimalValue(d, f) == DigitsValue(d) as real + DigitsValue(f) as real / 100.0
  {
    FractionOfTwo(f);
  }

  lemma FractionOfTwo(f: string)
    requires |f| == 2 && AllDigits(f)
    ensures FractionValue(f) == DigitsValue(f) as real / 100.0
  {
    var a, b := DigitValue(f[0]) as real, DigitValue(f[1]) as real;
    assert f[1..][1..] == [];
    assert FractionValue(f[1..]) == b / 10.0;
    assert f[..1][..0] == [];
    assert DigitsValue(f[..1]) as real == a;
    assert DigitsValue(f) as real == 10.0 * a + b;
  }

  /** What parseFloat reads from text that starts with `n` digits, a dot and `m` digits. */
  lemma ParseFloatAt(s: string, n: nat, m: nat)
    requires n < |s| && DigitRun(s, 0) == n && s[n] == '.' && DigitRun(s, n + 1) == m && n >= 1
    ensures ParseFloat(s) == Some(DecimalValue(s[..n], s[n + 1..n + 1 + m]))
  {
  }

  /** A run of digits, a dot and a run of digits read as their decimal value. */
  lemma ParseDecimal(d: string, f: string)
    requires |d| >= 1 && AllDigits(d) && AllDigits(f)
    ensures ParseFloat(d + "." + f) == Some(DecimalValue(d, f))
  {
    var s := d + "." + f;
    DecimalLayout(d, f);
    ParseFloatAt(s, |d|, |f|);
  }

  lemma DecimalLayout(d: string, f: string)
    requires |d| >= 1 && AllDigits(d) && AllDigits(f)
    ensures var s := d + "." + f;
      |d| < |s| && DigitRun(s, 0) == |d| && s[|d|] == '.' && DigitRun(s, |d| + 1) == |f| &&
      s[..|d|] == d && s[|d| + 1..|d| + 1 + |f|] == f
  {
    var s := d + "." + f;
    assert s == d + ("." + f);
    DigitRunPrefix(d, "." + f);
    assert s[|d| + 1..] == f;
    DigitRunWhole(s, |d| + 1);
    assert s[..|d|] == d;
    assert s[|d| + 1..|d| + 1 + |f|] == f;
  }

  /** The digit run of `d + t` for digits `d` and `t` not starting with a digit. */
  lemma DigitRunPrefix(d: string, t: string)
    requires AllDigits(d) && t != [] && !IsDigit(t[0])
    ensures DigitRun(d + t, 0) == |d|
  {
    var s := d + t;
    assert forall k :: 0 <= k < |d| ==> s[k] == d[k];
    assert s[|d|] == t[0];
    DigitRunOver(s, 0, |d|);
  }

  /** A run of digits that reaches the end of the text. */
  lemma DigitRunWhole(s: string, i: nat)
    requires i <= |s| && AllDigits(s[i..])
    ensures DigitRun(s, i) == |s| - i
  {
    assert forall k :: i <= k < |s| ==> s[k] == s[i..][k - i];
    DigitRunOver(s, i, |s|);
  }

  /** A bare integer reads as its value. */
  lemma ParseInteger(d: string)
    requires |d| >= 1 && AllDigits(d)
    ensures ParseFloat(d) == Some(DigitsValue(d) as real)
  {
    DigitRunOver(d, 0, |d|);
    assert d[..|d|] == d;
  }

  lemma NoSpacesIn(s: string)
    requires forall i :: 0 <= i < |s| ==> IsDigit(s[i]) || s[i] == ',' || s[i] == '.' || s[i] == ArabicMark
    ensures Remove(s, Whitespace) == s
  {
    FilterNoop(s, Whitespace, false);
  }

  /** The plain decimal `d.f` is left as it is. */
  lemma NormalizePlain(d: string, f: string)
    requires |d| >= 1 && AllDigits(d) && |f| == 2 && AllDigits(f)
    ensures NormalizeNumber(d + "." + f) == d + "." + f
  {
    var w := d + "." + f;
    assert forall i :: 0 <= i < |w| ==> IsDigit(w[i]) || w[i] == '.';
    NoSpacesIn(w);
    NormalizeWithoutComma(w);
  }

  /** The characters of `g + [c] + f`, position by position. */
  lemma JoinChars(g: string, c: char, f: string, ok: char -> bool)
    requires forall i :: 0 <= i < |g| ==> ok(g[i])
    requires ok(c)
    requires forall i :: 0 <= i < |f| ==> ok(f[i])
    ensures forall i :: 0 <= i < |g + [c] + f| ==> ok((g + [c] + f)[i])
  {
    var w := g + [c] + f;
    forall i | 0 <= i < |w| ensures ok(w[i]) {
      if i < |g| { assert w[i] == g[i]; } else if i > |g| { assert w[i] == f[i - |g| - 1]; }
    }
  }

  /** `g` followed by the separator `c` and two digits `f` has the cents form. */
  lemma CentsFormOf(g: string, sep: CharSet, c: char, f: string)
    requires Grouped(g, sep)
    requires |f| == 2 && AllDigits(f)
    ensures GroupedWithCents(g + [c] + f, sep, Single(c))
  {
    var w := g + [c] + f;
    assert w[..|w| - 3] == g && w[|w| - 2..] == f && w[|w| - 3] == c;
  }

  /** Deleting a character class from `g + [c] + f` when `c` and `f` stay. */
  lemma RemoveJoin(g: string, c: char, f: string, cs: CharSet)
    requires !In(c, cs) && forall i :: 0 <= i < |f| ==> !In(f[i], cs)
    ensures Remove(g + [c] + f, cs) == Remove(g, cs) + [c] + f
  {
    assert g + [c] + f == g + ([c] + f);
    FilterConcat(g, [c] + f, cs, false);
    FilterNoop([c] + f, cs, false);
  }

  /** Text without whitespace is handed to the separator rules as it is. */
  lemma NormalizeCompactText(w: string)
    requires w != [] && forall i :: 0 <= i < |w| ==> !IsSpace(w[i])
    ensures NormalizeNumber(w) == NormalizeCompact(w)
  {
    SpacesNoop(w);
  }

  lemma CompactEuropean(w: string)
    requires ArabicMark !in w && EuropeanForm(w)
    ensures NormalizeCompact(w) == CommaDecimal(w)
  {
  }

  lemma CompactUs(w: string)
    requires ArabicMark !in w && !EuropeanForm(w) && UsForm(w)
    ensures NormalizeCompact(w) == Remove(w, Single(','))
  {
  }

  /** `g`, one separator and the digits `f`: a text of digits, commas and
      dots, with no whitespace and no Arabic mark. */
  lemma SeparatedText(g: string, c: char, f: string)
    requires forall i :: 0 <= i < |g| ==> IsDigit(g[i]) || g[i] == ',' || g[i] == '.'
    requires (c == ',' || c == '.') && AllDigits(f)
    ensures var w := g + [c] + f;
      w != [] && ArabicMark !in w && NormalizeNumber(w) == NormalizeCompact(w)
  {
    var w := g + [c] + f;
    JoinChars(g, c, f, c => IsDigit(c) || c == ',' || c == '.');
    NoSpacesIn(w);
    NormalizeCompactText(w);
  }

  lemma UsRewrite(g: string, d: string, f: string)
    requires Remove(g, Single(',')) == d && AllDigits(f)
    ensures Remove(g + "." + f, Single(',')) == d + "." + f
  {
    RemoveJoin(g, '.', f, Single(','));
  }

  lemma NormalizeUsOf(g: string, d: string, f: string)
    requires Grouped(g, Single(',')) && Remove(g, Single(',')) == d
    requires forall i :: 0 <= i < |g| ==> IsDigit(g[i]) || g[i] == ','
    requires |f| == 2 && AllDigits(f)
    ensures NormalizeNumber(g + "." + f) == d + "." + f
  {
    var w := g + "." + f;
    SeparatedText(g, '.', f);
    CentsFormOf(g, Single(','), '.', f);
    assert w[|w| - 3] == '.';
    CompactUs(w);
    UsRewrite(g, d, f);
  }

  lemma NormalizeUs(d: string, f: string)
    requires |d| >= 1 && AllDigits(d) && |f| == 2 && AllDigits(f)
    ensures NormalizeNumber(Group(d, ',') + "." + f) == d + "." + f
  {
    GroupShape(d, ',', Single(','));
    GroupRemove(d, ',', Single(','));
    NormalizeUsOf(Group(d, ','), d, f);
  }

  lemma EuropeanRewrite(g: string, d: string, f: string)
    requires Remove(g, Single('.')) == d && AllDigits(d) && AllDigits(f)
    ensures CommaDecimal(g + "," + f) == d + "." + f
  {
    RemoveJoin(g, ',', f, Single('.'));
    CommaToPoint(d, f);
  }

  lemma NormalizeEuropeanOf(g: string, d: string, f: string)
    requires Grouped(g, Single('.')) && Remove(g, Single('.')) == d && AllDigits(d)
    requires forall i :: 0 <= i < |g| ==> IsDigit(g[i]) || g[i] == '.'
    requires |f| == 2 && AllDigits(f)
    ensures NormalizeNumber(g + "," + f) == d + "." + f
  {
    var w := g + "," + f;
    SeparatedText(g, ',', f);
    CentsFormOf(g, Single('.'), ',', f);
    CompactEuropean(w);
    EuropeanRewrite(g, d, f);
  }

  lemma CommaToPoint(d: string, f: string)
    requires AllDigits(d)
    ensures ReplaceFirst(d + "," + f, ',', '.') == d + "." + f
  {
    assert ',' !in d;
    ReplaceFirstConcat(d, "," + f, ',', '.');
    assert d + "," + f == d + ("," + f);
    assert ReplaceFirst("," + f, ',', '.') == "." + f;
    assert d + ("." + f) == d + "." + f;
  }

  lemma NormalizeEuropean(d: string, f: string)
    requires |d| >= 1 && AllDigits(d) && |f| == 2 && AllDigits(f)
    ensures NormalizeNumber(Group(d, '.') + "," + f) == d + "." + f
  {
    GroupShape(d, '.', Single('.'));
    GroupRemove(d, '.', Single('.'));
    NormalizeEuropeanOf(Group(d, '.'), d, f);
  }

  lemma NormalizeArabicOf(g: string, d: string, f: string)
    requires Remove(g, CommaOrDot) == d
    requires forall i :: 0 <= i < |g| ==> IsDigit(g[i]) || g[i] == ','
    requires AllDigits(f)
    ensures NormalizeNumber(g + [ArabicMark] + f) == d + "." + f
  {
    var w := g + [ArabicMark] + f;
    JoinChars(g, ArabicMark, f, c => IsDigit(c) || c == ',' || c == ArabicMark);
    NoSpacesIn(w);
    assert w[..|g|] == g && w[|g| + 1..] == f;
    assert ArabicMark !in g;
    assert FirstIndexOf(w, ArabicMark) == |g|;
    assert ArabicMark !in f;
  }

  lemma NormalizeArabic(d: string, f: string)
    requires |d| >= 1 && AllDigits(d) && |f| == 2 && AllDigits(f)
    ensures NormalizeNumber(Group(d, ',') + [ArabicMark] + f) == d + "." + f
  {
    GroupShape(d, ',', CommaOrDot);
    GroupRemove(d, ',', CommaOrDot);
    NormalizeArabicOf(Group(d, ','), d, f);
  }

  lemma NormalizeArabicPlain(d: string, f: string)
    requires |d| >= 1 && AllDigits(d) && |f| == 2 && AllDigits(f)
    ensures NormalizeNumber(d + [ArabicMark] + f) == d + "." + f
  {
    var w := d + [ArabicMark] + f;
    assert forall i :: 0 <= i < |w| ==> IsDigit(w[i]) || w[i] == ArabicMark;
    NoSpacesIn(w);
    assert w[..|d|] == d && w[|d| + 1..] == f;
    assert ArabicMark !in d;
    assert FirstIndexOf(w, ArabicMark) == |d|;
    assert ArabicMark !in f;
    FilterNoop(d, CommaOrDot, false);
  }

  lemma NormalizeSpace(d: string, f: string)
    requires |d| >= 1 && AllDigits(d) && |f| == 2 && AllDigits(f)
    ensures NormalizeNumber(Group(d, ' ') + "." + f) == d + "." + f
  {
    GroupRemove(d, ' ', Whitespace);
    NormalizeSpaceOf(Group(d, ' '), d, f);
  }

  lemma NormalizeSpaceOf(g: string, d: string, f: string)
    requires Remove(g, Whitespace) == d
    requires |d| >= 1 && AllDigits(d) && |f| == 2 && AllDigits(f)
    ensures NormalizeNumber(g + "." + f) == d + "." + f
  {
    SpaceRemoved(g, d, f);
    var v := d + "." + f;
    assert forall i :: 0 <= i < |v| ==> IsDigit(v[i]) || v[i] == '.';
    SpacedPlain(g + "." + f, v);
    NormalizePlain(d, f);
  }

  lemma SpaceRemoved(g: string, d: string, f: string)
    requires Remove(g, Whitespace) == d && AllDigits(f)
    ensures Remove(g + "." + f, Whitespace) == d + "." + f
  {
    var t := "." + f;
    assert forall i :: 0 <= i < |t| ==> IsDigit(t[i]) || t[i] == '.';
    RemoveAppendKept(g, t, Whitespace);
    assert g + "." + f == g + t;
    assert d + t == d + "." + f;
  }

  /** Deleting a character class from `a + b` when `b` has none of it. */
  lemma RemoveAppendKept(a: string, b: string, cs: CharSet)
    requires forall i :: 0 <= i < |b| ==> !In(b[i], cs)
    ensures Remove(a + b, cs) == Remove(a, cs) + b
  {
    FilterConcat(a, b, cs, false);
    FilterNoop(b, cs, false);
  }

  /** Text whose whitespace-free form `v` is itself free of whitespace
      normalises as `v` does. */
  lemma SpacedPlain(w: string, v: string)
    requires w != [] && Remove(w, Whitespace) == v && v != []
    requires forall i :: 0 <= i < |v| ==> !IsSpace(v[i])
    ensures NormalizeNumber(w) == NormalizeNumber(v)
  {
    SpacesNoop(v);
  }

  /** Every supported style normalises to the plain decimal `d.f`. */
  lemma NormalizeRendered(style: Style, d: string, f: string)
    requires |d| >= 1 && AllDigits(d) && |f| == 2 && AllDigits(f)
    ensures NormalizeNumber(Render(style, d, f)) == d + "." + f
  {
    match style
    case PlainStyle => NormalizePlain(d, f);
    case UsStyle => NormalizeUs(d, f);
    case EuropeanStyle => NormalizeEuropean(d, f);
    case ArabicStyle => NormalizeArabic(d, f);
    case ArabicPlainStyle => NormalizeArabicPlain(d, f);
    case SpaceStyle => NormalizeSpace(d, f);
  }

  /** So every style reads as the same price. */
  lemma RenderedValue(style: Style, d: string, f: string)
    requires |d| >= 1 && AllDigits(d) && |f| == 2 && AllDigits(f)
    ensures ParseFloat(NormalizeNumber(Render(style, d, f))) == Some(DigitsValue(d) as real + DigitsValue(f) as real / 100.0)
  {
    NormalizeRendered(style, d, f);
    ParsePlainDecimal(d, f);
  }

  /** A bare integer is left as it is and reads as its value. */
  lemma NormalizeInteger(d: string)
    requires |d| >= 1 && AllDigits(d)
    ensures NormalizeNumber(d) == d
    ensures ParseFloat(NormalizeNumber(d)) == Some(DigitsValue(d) as real)
  {
    NoSpacesIn(d);
    NormalizeWithoutComma(d);
    ParseInteger(d);
  }
}
