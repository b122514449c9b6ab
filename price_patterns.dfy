/** The seven global regular expressions the price engine scans text with,
    each written as a deterministic recogniser. For every one of them the
    match the backtracking engine returns at a position is the longest
    prefix there that has the pattern's shape, and that is what the lemmas
    below establish against a declarative description of each shape. */
module PricePatterns {
  import opened Text
  import opened Models
  import opened NumberFormat

  datatype Pattern =
    | DotCents        // \d{1,3}(?:[,\s]\d{3})*\.\d{2}
    | ArabicCents     // \d{1,3}(?:[,\s]\d{3})*٫\d{2}
    | CommaCents      // \d{1,3}(?:[\.\s]\d{3})*,\d{2}
    | ThousandsInt    // \d{1,3}(?:[,\s.]\d{3})+
    | SimpleDecimal   // \d+[\.\,٫]\d{1,2}
    | LongInt         // \d{4,}
    | AnyInt          // \d+

  /** The patterns in the order they are tried. */
  const AllPatterns: seq<Pattern> :=
    [DotCents, ArabicCents, CommaCents, ThousandsInt, SimpleDecimal, LongInt, AnyInt]

  predicate IsDecimalMark(c: char) { c == '.' || c == ',' || c == ArabicMark }

  /** A run of digits, one decimal mark, then one or two digits. */
  predicate SimpleDecimalForm(t: string) {
    var n := DigitRun(t, 0);
    n >= 1 && n + 2 <= |t| <= n + 3 && IsDecimalMark(t[n]) && AllDigits(t[n + 1..])
  }

  /** The whole of `t` is a match of `p`. */
  predicate Form(p: Pattern, t: string) {
    match p
    case DotCents => GroupedWithCents(t, CommaOrSpace, Single('.'))
    case ArabicCents => GroupedWithCents(t, CommaOrSpace, Single(ArabicMark))
    case CommaCents => GroupedWithCents(t, DotOrSpace, Single(','))
    case ThousandsInt => |t| >= 5 && Grouped(t, SeparatorOrSpace)
    case SimpleDecimal => SimpleDecimalForm(t)
    case LongInt => |t| >= 4 && AllDigits(t)
    case AnyInt => |t| >= 1 && AllDigits(t)
  }

  /** The separator classes never contain a digit. */
  predicate NoDigitIn(cs: CharSet) {
    forall c :: In(c, cs) ==> !IsDigit(c)
  }

  // ---------------------------------------------------------------------
  // Thousands groups, read from the left

  /** One `(?:sep\d{3})` starting at `p`. */
  predicate GroupAt(s: string, p: nat, sep: CharSet) {
    p + 4 <= |s| && In(s[p], sep) && AllDigits(s[p + 1..p + 4])
  }

  /** Where the greedy repetition of groups that starts at `p` stops. */
  function GroupsEnd(s: string, p: nat, sep: CharSet): (q: nat)
    requires p <= |s|
    ensures p <= q <= |s|
    decreases |s| - p
  {
    if GroupAt(s, p, sep) then GroupsEnd(s, p + 4, sep) else p
  }

  /** `s[p..q]` is made of whole consecutive groups. */
  predicate GroupsBetween(s: string, p: nat, q: nat, sep: CharSet)
    decreases q - p
  {
    p == q || (p < q && GroupAt(s, p, sep) && GroupsBetween(s, p + 4, q, sep))
  }

  /** Groups that run up to `q` do not change where the greedy repetition stops. */
  lemma {:induction false} GroupsEndFrom(s: string, p: nat, q: nat, sep: CharSet)
    requires p <= |s| && GroupsBetween(s, p, q, sep)
    ensures q <= |s| && GroupsEnd(s, p, sep) == GroupsEnd(s, q, sep)
    decreases q - p
  {
    if p != q {
      GroupsEndFrom(s, p + 4, q, sep);
    }
  }

  /** The greedy repetition consumes whole groups. */
  lemma {:induction false} GroupsEndValid(s: string, p: nat, sep: CharSet)
    requires p <= |s|
    ensures GroupsBetween(s, p, GroupsEnd(s, p, sep), sep)
    ensures !GroupAt(s, GroupsEnd(s, p, sep), sep)
    decreases |s| - p
  {
    if GroupAt(s, p, sep) {
      GroupsEndValid(s, p + 4, sep);
    }
  }

  lemma {:induction false} GroupsSnoc(s: string, p: nat, q: nat, sep: CharSet)
    requires GroupsBetween(s, p, q, sep) && GroupAt(s, q, sep)
    ensures GroupsBetween(s, p, q + 4, sep)
    decreases q - p
  {
    if p != q {
      GroupsSnoc(s, p + 4, q, sep);
    }
  }

  lemma {:induction false} GroupsUnsnoc(s: string, p: nat, q: nat, sep: CharSet)
    requires GroupsBetween(s, p, q, sep) && p < q
    ensures p + 4 <= q && GroupAt(s, q - 4, sep) && GroupsBetween(s, p, q - 4, sep)
    decreases q - p
  {
    if p + 4 < q {
      GroupsUnsnoc(s, p + 4, q, sep);
    }
  }

  /** The right-to-left description of a grouped number used by the
      normaliser, read from the left: a leading run of one to three digits
      followed by whole groups. */
  predicate GroupedFromLeft(s: string, i: nat, q: nat, sep: CharSet)
    requires i <= q <= |s|
  {
    var r := DigitRun(s, i);
    (1 <= q - i <= 3 && AllDigits(s[i..q])) ||
    (1 <= r <= 3 && i + r < q && GroupsBetween(s, i + r, q, sep))
  }

  /** A grouped slice longer than one group ends in a whole group. */
  lemma PeelGroup(s: string, i: nat, q: nat, sep: CharSet)
    requires i <= q <= |s|
    requires Grouped(s[i..q], sep) && !(1 <= q - i <= 3 && AllDigits(s[i..q]))
    ensures q >= i + 5 && Grouped(s[i..q - 4], sep) && GroupAt(s, q - 4, sep)
  {
    var t := s[i..q];
    assert t[..|t| - 4] == s[i..q - 4];
    assert s[q - 4] == t[|t| - 4];
    assert s[q - 3..q] == t[|t| - 3..];
  }

  lemma {:induction false} GroupedSliceLeft(s: string, i: nat, q: nat, sep: CharSet)
    requires i <= q <= |s| && NoDigitIn(sep)
    requires Grouped(s[i..q], sep)
    ensures GroupedFromLeft(s, i, q, sep)
    decreases q - i
  {
    if !(1 <= q - i <= 3 && AllDigits(s[i..q])) {
      PeelGroup(s, i, q, sep);
      GroupedSliceLeft(s, i, q - 4, sep);
      ExtendLeft(s, i, q, sep);
    }
  }

  /** One more group on the right of a left reading. */
  lemma ExtendLeft(s: string, i: nat, q: nat, sep: CharSet)
    requires i + 5 <= q <= |s| && NoDigitIn(sep)
    requires GroupedFromLeft(s, i, q - 4, sep) && GroupAt(s, q - 4, sep)
    ensures GroupedFromLeft(s, i, q, sep)
  {
    if 1 <= q - 4 - i <= 3 && AllDigits(s[i..q - 4]) {
      assert !IsDigit(s[q - 4]);
      DigitRunUpTo(s, i, q - 4);
      assert GroupsBetween(s, q - 4, q, sep) by {
        assert GroupsBetween(s, q, q, sep);
      }
    } else {
      GroupsSnoc(s, i + DigitRun(s, i), q - 4, sep);
    }
  }

  lemma {:induction false} GroupedSliceRight(s: string, i: nat, q: nat, sep: CharSet)
    requires i <= q <= |s|
    requires GroupedFromLeft(s, i, q, sep)
    ensures Grouped(s[i..q], sep)
    decreases q - i
  {
    var r := DigitRun(s, i);
    if !(1 <= q - i <= 3 && AllDigits(s[i..q])) {
      GroupsUnsnoc(s, i + r, q, sep);
      if q - 4 == i + r {
        var h := s[i..q - 4];
        assert AllDigits(h) by {
          forall k | 0 <= k < r ensures IsDigit(h[k]) {
            assert h[k] == s[i + k];
          }
        }
      } else {
        GroupedSliceRight(s, i, q - 4, sep);
      }
      AppendGroup(s, i, q, sep);
    }
  }

  /** A grouped slice followed by one whole group is grouped. */
  lemma AppendGroup(s: string, i: nat, q: nat, sep: CharSet)
    requires i + 5 <= q <= |s|
    requires Grouped(s[i..q - 4], sep) && GroupAt(s, q - 4, sep)
    ensures Grouped(s[i..q], sep)
  {
    var t := s[i..q];
    assert t[..|t| - 4] == s[i..q - 4];
    assert s[q - 4] == t[|t| - 4];
    assert s[q - 3..q] == t[|t| - 3..];
  }

  /** A run of digits that stops at a non-digit is the digit run. */
  lemma DigitRunUpTo(s: string, i: nat, j: nat)
    requires i <= j < |s| && AllDigits(s[i..j]) && !IsDigit(s[j])
    ensures DigitRun(s, i) == j - i
  {
    assert forall k :: i <= k < j ==> s[k] == s[i..j][k - i];
    DigitRunOver(s, i, j);
  }

  // ---------------------------------------------------------------------
  // The recognisers

  /** `\d{1,3}(?:sep\d{3})*` followed by `mark` and two digits, at `i`. */
  function CentsMatch(s: string, i: nat, sep: CharSet, mark: char): (e: Option<nat>)
    requires i <= |s|
    ensures e.Some? ==> i < e.value <= |s|
  {
    var r := DigitRun(s, i);
    if 1 <= r <= 3 then
      var g := GroupsEnd(s, i + r, sep);
      if g + 3 <= |s| && s[g] == mark && IsDigit(s[g + 1]) && IsDigit(s[g + 2]) then Some(g + 3) else None
    else None
  }

  /** The end of the match of `p` that starts exactly at `i`, if any. */
  function MatchAt(p: Pattern, s: string, i: nat): (e: Option<nat>)
    requires i <= |s|
    ensures e.Some? ==> i < e.value <= |s|
  {
    var r := DigitRun(s, i);
    match p
    case DotCents => CentsMatch(s, i, CommaOrSpace, '.')
    case ArabicCents => CentsMatch(s, i, CommaOrSpace, ArabicMark)
    case CommaCents => CentsMatch(s, i, DotOrSpace, ',')
    case ThousandsInt =>
      var g := GroupsEnd(s, i + r, SeparatorOrSpace);
      if 1 <= r <= 3 && g > i + r then Some(g) else None
    case SimpleDecimal => SimpleDecimalEnd(s, i)
    case LongInt => if r >= 4 then Some(i + r) else None
    case AnyInt => if r >= 1 then Some(i + r) else None
  }

  /** Where `\d+[\.\,٫]\d{1,2}` matching at `i` ends: the digits, a
      decimal mark, and one or two more digits. */
  function SimpleDecimalEnd(s: string, i: nat): (e: Option<nat>)
    requires i <= |s|
    ensures e.Some? ==> i < e.value <= |s|
  {
    var r := DigitRun(s, i);
    if r >= 1 && i + r + 1 < |s| && IsDecimalMark(s[i + r]) && IsDigit(s[i + r + 1]) then
      Some(if i + r + 2 < |s| && IsDigit(s[i + r + 2]) then i + r + 3 else i + r + 2)
    else None
  }

  /** The matches of a global pattern, left to right: the match at the first
      position where there is one, then the same from where it ended. */
  function Scan(p: Pattern, s: string, from: nat): seq<string>
    requires from <= |s|
    decreases |s| - from
  {
    if from == |s| then []
    else match MatchAt(p, s, from)
      case Some(e) => [s[from..e]] + Scan(p, s, e)
      case None => Scan(p, s, from + 1)
  }

  /** `text.match(pattern)`, with no match read as the empty list. */
  function Matches(p: Pattern, s: string): seq<string> { Scan(p, s, 0) }

  // ---------------------------------------------------------------------
  // The recognisers agree with the shapes

  /** What `Form` says of `s[i..q]` for a cents pattern, read from the left. */
  lemma CentsSlice(s: string, i: nat, q: nat, sep: CharSet, mark: char)
    requires i < q <= |s| && NoDigitIn(sep) && !IsDigit(mark)
    ensures GroupedWithCents(s[i..q], sep, Single(mark)) <==>
      (q >= i + 4 && s[q - 3] == mark && IsDigit(s[q - 2]) && IsDigit(s[q - 1]) && GroupedFromLeft(s, i, q - 3, sep))
  {
    var t := s[i..q];
    if q >= i + 4 {
      assert t[..|t| - 3] == s[i..q - 3];
      assert t[|t| - 3] == s[q - 3];
      assert t[|t| - 2..] == s[q - 2..q];
      TwoDigits(s, q);
      GroupedIff(s, i, q - 3, sep);
    }
  }

  lemma TwoDigits(s: string, q: nat)
    requires 2 <= q <= |s|
    ensures AllDigits(s[q - 2..q]) <==> IsDigit(s[q - 2]) && IsDigit(s[q - 1])
  {
    var t := s[q - 2..q];
    assert t[0] == s[q - 2] && t[1] == s[q - 1];
  }

  /** The two readings of a grouped slice agree. */
  lemma GroupedIff(s: string, i: nat, q: nat, sep: CharSet)
    requires i <= q <= |s| && NoDigitIn(sep)
    ensures Grouped(s[i..q], sep) <==> GroupedFromLeft(s, i, q, sep)
  {
    if Grouped(s[i..q], sep) {
      GroupedSliceLeft(s, i, q, sep);
    }
    if GroupedFromLeft(s, i, q, sep) {
      GroupedSliceRight(s, i, q, sep);
    }
  }

  /** The left reading of a grouped slice that a non-separator ends: the
      greedy repetition stops exactly there. */
  lemma GroupsEndAtBoundary(s: string, i: nat, h: nat, sep: CharSet)
    requires i <= h < |s| && NoDigitIn(sep) && !In(s[h], sep) && !IsDigit(s[h])
    requires GroupedFromLeft(s, i, h, sep)
    ensures 1 <= DigitRun(s, i) <= 3 && GroupsEnd(s, i + DigitRun(s, i), sep) == h
  {
    var r := DigitRun(s, i);
    if 1 <= h - i <= 3 && AllDigits(s[i..h]) {
      DigitRunUpTo(s, i, h);
    } else {
      GroupsEndFrom(s, i + r, h, sep);
    }
  }

  lemma CentsFormMatches(s: string, i: nat, q: nat, sep: CharSet, mark: char)
    requires i < q <= |s| && NoDigitIn(sep) && !IsDigit(mark) && !In(mark, sep)
    requires GroupedWithCents(s[i..q], sep, Single(mark))
    ensures CentsMatch(s, i, sep, mark) == Some(q)
  {
    CentsSlice(s, i, q, sep, mark);
    GroupsEndAtBoundary(s, i, q - 3, sep);
  }

  lemma CentsMatchForm(s: string, i: nat, sep: CharSet, mark: char)
    requires i <= |s| && NoDigitIn(sep) && !IsDigit(mark)
    requires CentsMatch(s, i, sep, mark).Some?
    ensures GroupedWithCents(s[i..CentsMatch(s, i, sep, mark).value], sep, Single(mark))
  {
    var q := CentsMatch(s, i, sep, mark).value;
    var r := DigitRun(s, i);
    GroupsEndValid(s, i + r, sep);
    var g := GroupsEnd(s, i + r, sep);
    assert g == q - 3;
    if g == i + r {
      assert AllDigits(s[i..g]) by {
        forall k | 0 <= k < r ensures IsDigit(s[i..g][k]) {
          assert s[i..g][k] == s[i + k];
        }
      }
    }
    CentsSlice(s, i, q, sep, mark);
  }

  /** A cents pattern matches at `i` exactly where the recogniser says, and
      only one end is possible. */
  lemma CentsMatchExact(s: string, i: nat, sep: CharSet, mark: char)
    requires i <= |s| && NoDigitIn(sep) && !IsDigit(mark) && !In(mark, sep)
    ensures forall q :: i < q <= |s| ==>
      (GroupedWithCents(s[i..q], sep, Single(mark)) <==> CentsMatch(s, i, sep, mark) == Some(q))
  {
    if CentsMatch(s, i, sep, mark).Some? {
      CentsMatchForm(s, i, sep, mark);
    }
    forall q | i < q <= |s| && GroupedWithCents(s[i..q], sep, Single(mark))
      ensures CentsMatch(s, i, sep, mark) == Some(q)
    {
      CentsFormMatches(s, i, q, sep, mark);
    }
  }

  lemma ThousandsExact(s: string, i: nat)
    requires i <= |s|
    ensures var r := DigitRun(s, i);
      forall q :: i < q <= |s| ==>
        (Form(ThousandsInt, s[i..q]) <==> 1 <= r <= 3 && i + r < q && GroupsBetween(s, i + r, q, SeparatorOrSpace))
  {
    var r := DigitRun(s, i);
    forall q | i < q <= |s|
      ensures Form(ThousandsInt, s[i..q]) <==> 1 <= r <= 3 && i + r < q && GroupsBetween(s, i + r, q, SeparatorOrSpace)
    {
      if Form(ThousandsInt, s[i..q]) {
        GroupedSliceLeft(s, i, q, SeparatorOrSpace);
      }
      if 1 <= r <= 3 && i + r < q && GroupsBetween(s, i + r, q, SeparatorOrSpace) {
        GroupedSliceRight(s, i, q, SeparatorOrSpace);
        GroupsUnsnoc(s, i + r, q, SeparatorOrSpace);
      }
    }
  }

  /** Whole groups never run past where the greedy repetition stops. */
  lemma GroupsWithinEnd(s: string, p: nat, q: nat, sep: CharSet)
    requires p <= |s| && GroupsBetween(s, p, q, sep)
    ensures q <= GroupsEnd(s, p, sep)
  {
    GroupsEndFrom(s, p, q, sep);
  }

  lemma ThousandsLongest(s: string, i: nat)
    requires i <= |s|
    ensures MatchAt(ThousandsInt, s, i).Some? ==>
      Form(ThousandsInt, s[i..MatchAt(ThousandsInt, s, i).value]) &&
      forall q :: MatchAt(ThousandsInt, s, i).value < q <= |s| ==> !Form(ThousandsInt, s[i..q])
    ensures MatchAt(ThousandsInt, s, i).None? ==> forall q :: i < q <= |s| ==> !Form(ThousandsInt, s[i..q])
  {
    var r := DigitRun(s, i);
    ThousandsExact(s, i);
    GroupsEndValid(s, i + r, SeparatorOrSpace);
    forall q | i < q <= |s| && Form(ThousandsInt, s[i..q])
      ensures MatchAt(ThousandsInt, s, i).Some? && q <= MatchAt(ThousandsInt, s, i).value
    {
      GroupsWithinEnd(s, i + r, q, SeparatorOrSpace);
    }
  }

  /** The digit run at the start of a slice is the run of the whole string,
      cut at the end of the slice. */
  lemma DigitRunSlice(s: string, i: nat, q: nat)
    requires i <= q <= |s|
    ensures DigitRun(s[i..q], 0) == if DigitRun(s, i) < q - i then DigitRun(s, i) else q - i
  {
    var t := s[i..q];
    var n := DigitRun(t, 0);
    forall j | i <= j < i + n ensures IsDigit(s[j]) {
      assert s[j] == t[j - i];
    }
    if i + n < q {
      assert t[n] == s[i + n];
      DigitRunUpTo(s, i, i + n);
    }
  }

  lemma SimpleDecimalSlice(s: string, i: nat, q: nat)
    requires i < q <= |s|
    ensures var r := DigitRun(s, i);
      SimpleDecimalForm(s[i..q]) <==>
        r >= 1 && i + r + 2 <= q <= i + r + 3 && IsDecimalMark(s[i + r]) && AllDigits(s[i + r + 1..q])
  {
    var t := s[i..q];
    var r := DigitRun(s, i);
    DigitRunSlice(s, i, q);
    if r < q - i {
      assert t[r] == s[i + r];
      assert t[r + 1..] == s[i + r + 1..q];
    }
  }

  lemma SimpleDecimalLongest(s: string, i: nat)
    requires i <= |s|
    ensures MatchAt(SimpleDecimal, s, i).Some? ==>
      Form(SimpleDecimal, s[i..MatchAt(SimpleDecimal, s, i).value]) &&
      forall q :: MatchAt(SimpleDecimal, s, i).value < q <= |s| ==> !Form(SimpleDecimal, s[i..q])
    ensures MatchAt(SimpleDecimal, s, i).None? ==> forall q :: i < q <= |s| ==> !Form(SimpleDecimal, s[i..q])
  {
    assert MatchAt(SimpleDecimal, s, i) == SimpleDecimalEnd(s, i);
    SimpleDecimalEndLongest(s, i);
  }

  lemma SimpleDecimalEndLongest(s: string, i: nat)
    requires i <= |s|
    ensures SimpleDecimalEnd(s, i).Some? ==>
      SimpleDecimalForm(s[i..SimpleDecimalEnd(s, i).value]) &&
      forall q :: SimpleDecimalEnd(s, i).value < q <= |s| ==> !SimpleDecimalForm(s[i..q])
    ensures SimpleDecimalEnd(s, i).None? ==> forall q :: i < q <= |s| ==> !SimpleDecimalForm(s[i..q])
  {
    if SimpleDecimalEnd(s, i).Some? {
      SimpleDecimalEndMatch(s, i);
    } else {
      SimpleDecimalEndNone(s, i);
    }
  }

  lemma SimpleDecimalEndMatch(s: string, i: nat)
    requires i <= |s| && SimpleDecimalEnd(s, i).Some?
    ensures var e := SimpleDecimalEnd(s, i).value;
      SimpleDecimalForm(s[i..e]) && forall q :: e < q <= |s| ==> !SimpleDecimalForm(s[i..q])
  {
    var r := DigitRun(s, i);
    var e := SimpleDecimalEnd(s, i).value;
    SimpleDecimalSlice(s, i, e);
    var tail := s[i + r + 1..e];
    assert IsDigit(s[i + r + 1]) && (e == i + r + 3 ==> IsDigit(s[i + r + 2]));
    forall k | 0 <= k < |tail| ensures IsDigit(tail[k]) {
      assert tail[k] == s[i + r + 1 + k];
    }
    forall q | e < q <= |s| ensures !SimpleDecimalForm(s[i..q]) {
      SimpleDecimalSlice(s, i, q);
      if q == i + r + 3 {
        assert e == i + r + 2 && !IsDigit(s[i + r + 2]);
        assert s[i + r + 1..q][1] == s[i + r + 2];
      }
    }
  }

  lemma SimpleDecimalEndNone(s: string, i: nat)
    requires i <= |s| && SimpleDecimalEnd(s, i).None?
    ensures forall q :: i < q <= |s| ==> !SimpleDecimalForm(s[i..q])
  {
    var r := DigitRun(s, i);
    if r >= 1 && i + r + 1 < |s| && IsDecimalMark(s[i + r]) {
      NotDigitsFrom(s, i + r + 1);
    }
    forall q | i < q <= |s| ensures !SimpleDecimalForm(s[i..q]) {
      SimpleDecimalSlice(s, i, q);
    }
  }

  /** No slice that starts at a non-digit is all digits. */
  lemma NotDigitsFrom(s: string, a: nat)
    requires a < |s| && !IsDigit(s[a])
    ensures forall q :: a < q <= |s| ==> !AllDigits(s[a..q])
  {
    forall q | a < q <= |s| ensures !AllDigits(s[a..q]) {
      assert s[a..q][0] == s[a];
    }
  }

  lemma DigitsSlice(s: string, i: nat, q: nat)
    requires i < q <= |s|
    ensures AllDigits(s[i..q]) <==> q <= i + DigitRun(s, i)
  {
    var r := DigitRun(s, i);
    if q <= i + r {
      assert forall k :: 0 <= k < q - i ==> s[i..q][k] == s[i + k];
    }
  }

  /** The recogniser of `p` at `i` finds the longest prefix of `s[i..]`
      that has the shape of `p`, and finds nothing exactly when there is none. */
  lemma MatchAtLongest(p: Pattern, s: string, i: nat)
    requires i <= |s|
    ensures MatchAt(p, s, i).Some? ==>
      Form(p, s[i..MatchAt(p, s, i).value]) &&
      forall q :: MatchAt(p, s, i).value < q <= |s| ==> !Form(p, s[i..q])
    ensures MatchAt(p, s, i).None? ==> forall q :: i < q <= |s| ==> !Form(p, s[i..q])
  {
    match p
    case DotCents => CentsMatchExact(s, i, CommaOrSpace, '.');
    case ArabicCents => CentsMatchExact(s, i, CommaOrSpace, ArabicMark);
    case CommaCents => CentsMatchExact(s, i, DotOrSpace, ',');
    case ThousandsInt => ThousandsLongest(s, i);
    case SimpleDecimal => SimpleDecimalLongest(s, i);
    case LongInt =>
      forall q | i < q <= |s| ensures AllDigits(s[i..q]) <==> q <= i + DigitRun(s, i) {
        DigitsSlice(s, i, q);
      }
    case AnyInt =>
      forall q | i < q <= |s| ensures AllDigits(s[i..q]) <==> q <= i + DigitRun(s, i) {
        DigitsSlice(s, i, q);
      }
  }

  /** Every match the scan reports has the shape of the pattern. */
  lemma {:induction false} ScanForms(p: Pattern, s: string, from: nat)
    requires from <= |s|
    ensures forall m :: m in Scan(p, s, from) ==> Form(p, m)
    decreases |s| - from
  {
    if from < |s| {
      MatchAtLongest(p, s, from);
      match MatchAt(p, s, from)
      case Some(e) => ScanForms(p, s, e);
      case None => ScanForms(p, s, from + 1);
    }
  }

  /** The scan finds nothing exactly when no position has a match. */
  lemma ScanEmpty(p: Pattern, s: string, from: nat)
    requires from <= |s|
    ensures Scan(p, s, from) == [] <==> forall i, q :: from <= i < q <= |s| ==> !Form(p, s[i..q])
  {
    ScanEmptyAt(p, s, from);
    if Scan(p, s, from) == [] {
      forall i, q | from <= i < q <= |s| ensures !Form(p, s[i..q]) {
        NoMatchNoForm(p, s, i);
      }
    } else {
      var i :| from <= i < |s| && MatchAt(p, s, i).Some?;
      NoMatchNoForm(p, s, i);
    }
  }

  /** The scan finds nothing exactly when the recogniser fails everywhere. */
  lemma {:induction false} ScanEmptyAt(p: Pattern, s: string, from: nat)
    requires from <= |s|
    ensures Scan(p, s, from) == [] <==> forall i :: from <= i < |s| ==> MatchAt(p, s, i).None?
    decreases |s| - from
  {
    if from < |s| && MatchAt(p, s, from).None? {
      ScanEmptyAt(p, s, from + 1);
    }
  }

  /** The recogniser fails at `i` exactly when no slice from `i` has the shape. */
  lemma NoMatchNoForm(p: Pattern, s: string, i: nat)
    requires i <= |s|
    ensures MatchAt(p, s, i).None? <==> forall q :: i < q <= |s| ==> !Form(p, s[i..q])
  {
    MatchAtLongest(p, s, i);
  }
}
