/**
 * Price extraction from free text (src/price_parser.py).
 *
 * The source runs one regular expression, case-insensitively, with
 * `finditer`:
 *
 *     (?:€|EUR|euro)\s*(N)   |   (N)\s*(?:€|EUR|euro)
 *     N = \d{1,3}(?:\.\d{3})*(?:,\d{1,2})?
 *
 * and converts every captured number with `_to_float`. Here the pattern
 * is a hand-written scanner (`MatchAt`), and the lemmas below prove that
 * it finds a match exactly where the pattern can match and returns the
 * match that the backtracking engine keeps. Prices are integer cents: the
 * number grammar allows at most two fractional digits.
 */
module PriceParser {
  import opened Wrappers
  import opened Strings

  const EuroSign: char := '\U{20AC}'

  // ---------------------------------------------------------------------
  // The number grammar  \d{1,3}(?:\.\d{3})*(?:,\d{1,2})?

  predicate IsNumberChar(c: char) {
    IsDigit(c) || c == '.' || c == ','
  }

  /** `(?:,\d{1,2})?` */
  predicate IsFracText(u: string) {
    u == [] || ((|u| == 2 || |u| == 3) && u[0] == ',' && AllDigits(u[1..]))
  }

  /** `(?:\.\d{3})*(?:,\d{1,2})?` */
  predicate IsGroupsFracText(u: string)
    decreases |u|
  {
    IsFracText(u) || (|u| >= 4 && u[0] == '.' && AllDigits(u[1..4]) && IsGroupsFracText(u[4..]))
  }

  /** `l` leading digits, then groups and fraction. */
  predicate LeadThen(t: string, l: nat) {
    1 <= l <= 3 && l <= |t| && AllDigits(t[..l]) && IsGroupsFracText(t[l..])
  }

  /** The whole of `t` is an `N`. */
  predicate IsNumberText(t: string) {
    LeadThen(t, 1) || LeadThen(t, 2) || LeadThen(t, 3)
  }

  lemma NumberTextStartsWithDigit(t: string)
    requires IsNumberText(t)
    ensures |t| > 0 && IsDigit(t[0])
  {
    var l: nat :| LeadThen(t, l);
    assert LeadThen(t, l);
    assert t[..l][0] == t[0];
  }

  // ---------------------------------------------------------------------
  // Currency markers  (?:€|EUR|euro), case-insensitive

  /** `EUR`, in any case, starts at `j`. */
  predicate EurAt(s: string, j: nat) {
    && j + 3 <= |s|
    && (s[j] == 'e' || s[j] == 'E')
    && (s[j + 1] == 'u' || s[j + 1] == 'U')
    && (s[j + 2] == 'r' || s[j + 2] == 'R')
  }

  /** `euro`, in any case, starts at `j`. */
  predicate EuroAt(s: string, j: nat) {
    EurAt(s, j) && j + 4 <= |s| && (s[j + 3] == 'o' || s[j + 3] == 'O')
  }

  /** One of the three marker alternatives, of length `len`, starts at `j`. */
  predicate MarkerOfLen(s: string, j: nat, len: nat) {
    || (len == 1 && j < |s| && s[j] == EuroSign)
    || (len == 3 && EurAt(s, j))
    || (len == 4 && EuroAt(s, j))
  }

  /** `\s*` spans `s[j..k]`. */
  predicate SpacesBetween(s: string, j: nat, k: nat) {
    j <= k <= |s| && forall x :: j <= x < k ==> IsSpace(s[x])
  }

  // ---------------------------------------------------------------------
  // What the pattern can match

  /** A match: it spans `s[start..end]` and captures `s[numStart..numEnd]`. */
  datatype Match = Match(start: nat, numStart: nat, numEnd: nat, end: nat)

  /** First alternative: marker of length `len`, spaces, then the number. */
  predicate PrefixForm(s: string, m: Match, len: nat) {
    && m.start + len <= m.numStart <= m.numEnd == m.end <= |s|
    && MarkerOfLen(s, m.start, len)
    && SpacesBetween(s, m.start + len, m.numStart)
    && IsNumberText(s[m.numStart..m.numEnd])
  }

  /** Second alternative: the number, spaces, then a marker of length `len`. */
  predicate SuffixForm(s: string, m: Match, len: nat) {
    && m.start == m.numStart <= m.numEnd
    && m.numEnd + len <= m.end <= |s|
    && IsNumberText(s[m.numStart..m.numEnd])
    && SpacesBetween(s, m.numEnd, m.end - len)
    && MarkerOfLen(s, m.end - len, len)
  }

  /** Some path of the backtracking engine matches `m`. */
  predicate PatternMatches(s: string, m: Match) {
    || PrefixForm(s, m, 1) || PrefixForm(s, m, 3) || PrefixForm(s, m, 4)
    || SuffixForm(s, m, 1) || SuffixForm(s, m, 3) || SuffixForm(s, m, 4)
  }

  /** A match whose capture `_to_float` can convert. */
  predicate Extractable(s: string, m: Match) {
    m.numStart <= m.numEnd <= |s| && IsNumberText(s[m.numStart..m.numEnd])
  }

  // ---------------------------------------------------------------------
  // The scanner

  function SkipSpaces(s: string, j: nat): (k: nat)
    requires j <= |s|
    ensures j <= k <= |s| && (k == |s| || !IsSpace(s[k]))
    decreases |s| - j
  {
    if j < |s| && IsSpace(s[j]) then SkipSpaces(s, j + 1) else j
  }

  /** What `SkipSpaces` skips is spaces. */
  lemma {:induction false} SkipSpacesSpaces(s: string, j: nat)
    requires j <= |s|
    ensures SpacesBetween(s, j, SkipSpaces(s, j))
    decreases |s| - j
  {
    if j < |s| && IsSpace(s[j]) {
      SkipSpacesSpaces(s, j + 1);
    }
  }

  /** The spaces run from `j` ends at the first non-space character. */
  lemma {:induction false} SkipSpacesUnique(s: string, j: nat, k: nat)
    requires SpacesBetween(s, j, k) && k < |s| && !IsSpace(s[k])
    ensures SkipSpaces(s, j) == k
    decreases k - j
  {
    if j < k {
      SkipSpacesUnique(s, j + 1, k);
    }
  }

  /** `\d{1,3}`, greedy. */
  function LeadEnd(s: string, i: nat): (a: nat)
    requires i < |s| && IsDigit(s[i])
    ensures i < a <= i + 3 && a <= |s|
    ensures a < i + 3 ==> a == |s| || !IsDigit(s[a])
  {
    if i + 1 < |s| && IsDigit(s[i + 1]) then
      (if i + 2 < |s| && IsDigit(s[i + 2]) then i + 3 else i + 2)
    else i + 1
  }

  /** A `\.\d{3}` group starts at `j`. */
  predicate GroupAt(s: string, j: nat) {
    j + 4 <= |s| && s[j] == '.' && IsDigit(s[j + 1]) && IsDigit(s[j + 2]) && IsDigit(s[j + 3])
  }

  /** `(?:\.\d{3})*`, greedy. */
  function GroupsEnd(s: string, j: nat): (g: nat)
    requires j <= |s|
    ensures j <= g <= |s| && !GroupAt(s, g)
    decreases |s| - j
  {
    if GroupAt(s, j) then GroupsEnd(s, j + 4) else j
  }

  /** `(?:,\d{1,2})?`, greedy. */
  function FracEnd(s: string, g: nat): (e: nat)
    requires g <= |s|
    ensures g <= e <= g + 3 && e <= |s|
  {
    if g + 1 < |s| && s[g] == ',' && IsDigit(s[g + 1]) then
      (if g + 2 < |s| && IsDigit(s[g + 2]) then g + 3 else g + 2)
    else g
  }

  /** Where the greedy reading of `N` from `i` ends. */
  function NumberEnd(s: string, i: nat): (e: nat)
    requires i < |s| && IsDigit(s[i])
    ensures i < e <= |s|
  {
    FracEnd(s, GroupsEnd(s, LeadEnd(s, i)))
  }

  lemma LeadEndDigits(s: string, i: nat)
    requires i < |s| && IsDigit(s[i])
    ensures forall x :: i <= x < LeadEnd(s, i) ==> IsDigit(s[x])
  {
  }

  lemma {:induction false} GroupsEndChars(s: string, j: nat)
    requires j <= |s|
    ensures forall x :: j <= x < GroupsEnd(s, j) ==> IsNumberChar(s[x])
    decreases |s| - j
  {
    if GroupAt(s, j) {
      GroupsEndChars(s, j + 4);
    }
  }

  /** The greedy reading covers digits, dots and commas only. */
  lemma NumberEndChars(s: string, i: nat)
    requires i < |s| && IsDigit(s[i])
    ensures forall x :: i <= x < NumberEnd(s, i) ==> IsNumberChar(s[x])
  {
    LeadEndDigits(s, i);
    GroupsEndChars(s, LeadEnd(s, i));
  }

  /** A digit follows the spaces that start at `j`. */
  predicate DigitAfterSpaces(s: string, j: nat)
    requires j <= |s|
  {
    var k := SkipSpaces(s, j);
    k < |s| && IsDigit(s[k])
  }

  /** The end of the marker that the first alternative keeps at `i`: `€`,
      else `EUR`, else `euro`, each only if spaces and a digit follow. */
  function MarkerEndBefore(s: string, i: nat): Option<nat>
    requires i < |s|
  {
    if s[i] == EuroSign then
      (if DigitAfterSpaces(s, i + 1) then Some(i + 1) else None)
    else if EurAt(s, i) && DigitAfterSpaces(s, i + 3) then Some(i + 3)
    else if EuroAt(s, i) && DigitAfterSpaces(s, i + 4) then Some(i + 4)
    else None
  }

  /** One attempt of the pattern at position `i`. The first alternative
      needs a marker at `i` and the second a digit, so at most one applies. */
  function MatchAt(s: string, i: nat): Option<Match>
    requires i < |s|
  {
    if IsDigit(s[i]) then
      var e := NumberEnd(s, i);
      var y := SkipSpaces(s, e);
      if y < |s| && s[y] == EuroSign then Some(Match(i, i, e, y + 1))
      else if EurAt(s, y) then Some(Match(i, i, e, y + 3))
      else None
    else
      match MarkerEndBefore(s, i)
      case None => None
      case Some(me) =>
        var ns := SkipSpaces(s, me);
        var e := NumberEnd(s, ns);
        Some(Match(i, ns, e, e))
  }

  // ---------------------------------------------------------------------
  // The greedy number reading is an N, and the longest one

  lemma {:induction false} GroupsSound(s: string, j: nat)
    requires j <= |s|
    ensures IsGroupsFracText(s[j..FracEnd(s, GroupsEnd(s, j))])
    decreases |s| - j
  {
    var e := FracEnd(s, GroupsEnd(s, j));
    var u := s[j..e];
    if GroupAt(s, j) {
      GroupsSound(s, j + 4);
      assert u[4..] == s[j + 4..e];
      assert u[1..4] == s[j + 1..j + 4];
    } else {
      if e > j {
        assert u[1..] == s[j + 1..e];
      }
    }
  }

  lemma NumberEndSound(s: string, i: nat)
    requires i < |s| && IsDigit(s[i])
    ensures IsNumberText(s[i..NumberEnd(s, i)])
  {
    var a := LeadEnd(s, i);
    var e := NumberEnd(s, i);
    var t := s[i..e];
    LeadEndDigits(s, i);
    GroupsSound(s, a);
    assert t[..a - i] == s[i..a];
    assert t[a - i..] == s[a..e];
    assert LeadThen(t, a - i);
  }

  lemma {:induction false} GroupsLongest(s: string, j: nat, e: nat)
    requires j <= e <= |s| && IsGroupsFracText(s[j..e])
    ensures e <= FracEnd(s, GroupsEnd(s, j))
    decreases e - j
  {
    var u := s[j..e];
    if IsFracText(u) {
      if u != [] {
        assert s[j] == u[0] && s[j + 1] == u[1];
        assert e == j + 3 ==> IsDigit(s[j + 2]) by {
          if e == j + 3 { assert s[j + 2] == u[2]; }
        }
      }
    } else {
      assert s[j + 1] == u[1] && s[j + 2] == u[2] && s[j + 3] == u[3];
      assert u[4..] == s[j + 4..e];
      GroupsLongest(s, j + 4, e);
    }
  }

  /** Any N that starts at `i` ends no later than the greedy reading. */
  lemma NumberLongest(s: string, i: nat, e: nat)
    requires i <= e <= |s| && IsNumberText(s[i..e])
    ensures i < |s| && IsDigit(s[i])
    ensures e <= NumberEnd(s, i)
  {
    var t := s[i..e];
    NumberTextStartsWithDigit(t);
    assert s[i] == t[0];
    var a := LeadEnd(s, i);
    var l: nat :| LeadThen(t, l);
    assert LeadThen(t, l);
    assert forall x :: i <= x < i + l ==> IsDigit(s[x]) by {
      forall x | i <= x < i + l ensures IsDigit(s[x]) {
        assert s[x] == t[..l][x - i];
      }
    }
    assert i + l <= a;
    assert t[l..] == s[i + l..e];
    if i + l < a {
      assert IsDigit(s[i + l]);
    } else {
      GroupsLongest(s, a, e);
    }
  }

  // ---------------------------------------------------------------------
  // The scanner agrees with the pattern

  /** A marker starts with a character that is neither a space nor part of
      a number. */
  lemma MarkerFirstChar(s: string, j: nat, len: nat)
    requires MarkerOfLen(s, j, len)
    ensures j < |s| && !IsSpace(s[j]) && !IsNumberChar(s[j])
    ensures len != 1 ==> s[j] != EuroSign
  {
  }

  /** Whatever the scanner returns, the pattern matches. */
  lemma MatchAtSound(s: string, i: nat)
    requires i < |s|
    ensures MatchAt(s, i).Some? ==> MatchAt(s, i).value.start == i && PatternMatches(s, MatchAt(s, i).value)
  {
    if IsDigit(s[i]) {
      SuffixMatchSound(s, i);
    } else {
      PrefixMatchSound(s, i);
    }
  }

  lemma SuffixMatchSound(s: string, i: nat)
    requires i < |s| && IsDigit(s[i])
    ensures MatchAt(s, i).Some? ==> MatchAt(s, i).value.start == i && PatternMatches(s, MatchAt(s, i).value)
  {
    var e := NumberEnd(s, i);
    var y := SkipSpaces(s, e);
    NumberEndSound(s, i);
    SkipSpacesSpaces(s, e);
    if y < |s| && s[y] == EuroSign {
      assert MatchAt(s, i) == Some(Match(i, i, e, y + 1));
      assert SuffixForm(s, Match(i, i, e, y + 1), 1);
    } else if EurAt(s, y) {
      assert MatchAt(s, i) == Some(Match(i, i, e, y + 3));
      assert SuffixForm(s, Match(i, i, e, y + 3), 3);
    }
  }

  lemma PrefixMatchSound(s: string, i: nat)
    requires i < |s| && !IsDigit(s[i])
    ensures MatchAt(s, i).Some? ==> MatchAt(s, i).value.start == i && PatternMatches(s, MatchAt(s, i).value)
  {
    if MarkerEndBefore(s, i).Some? {
      var me := MarkerEndBefore(s, i).value;
      var ns := SkipSpaces(s, me);
      var e := NumberEnd(s, ns);
      NumberEndSound(s, ns);
      SkipSpacesSpaces(s, me);
      assert MatchAt(s, i) == Some(Match(i, ns, e, e));
      assert MarkerOfLen(s, i, me - i);
      assert PrefixForm(s, Match(i, ns, e, e), me - i);
    }
  }

  /** Where the second alternative can match, the scanner returns its only
      possible capture, and the first marker alternative that fits. */
  lemma SuffixComplete(s: string, m: Match, len: nat)
    requires SuffixForm(s, m, len)
    ensures m.start < |s| && IsDigit(s[m.start])
    ensures MatchAt(s, m.start).Some?
    ensures MatchAt(s, m.start).value.numStart == m.numStart
    ensures MatchAt(s, m.start).value.numEnd == m.numEnd
    ensures MatchAt(s, m.start).value.end <= m.end
  {
    var i := m.start;
    NumberLongest(s, i, m.numEnd);
    var e := NumberEnd(s, i);
    var y := m.end - len;
    NumberEndChars(s, i);
    MarkerFirstChar(s, y, len);
    assert !IsNumberChar(s[m.numEnd]) by {
      if m.numEnd < y {
        assert IsSpace(s[m.numEnd]);
      }
    }
    assert m.numEnd == e;
    SkipSpacesUnique(s, e, y);
  }

  /** Where the first alternative can match, the scanner finds the same
      marker end and capture start, and a capture at least as long. */
  lemma PrefixComplete(s: string, m: Match, len: nat)
    requires PrefixForm(s, m, len)
    ensures m.start < |s| && !IsDigit(s[m.start])
    ensures MatchAt(s, m.start).Some?
    ensures MatchAt(s, m.start).value.numStart == m.numStart
    ensures m.numEnd <= MatchAt(s, m.start).value.numEnd
  {
    var i := m.start;
    MarkerFirstChar(s, i, len);
    NumberTextStartsWithDigit(s[m.numStart..m.numEnd]);
    assert s[m.numStart] == s[m.numStart..m.numEnd][0];
    NumberLongest(s, m.numStart, m.numEnd);
    MarkerEndOfPrefix(s, i, len, m.numStart);
  }

  lemma MarkerEndOfPrefix(s: string, i: nat, len: nat, ns: nat)
    requires MarkerOfLen(s, i, len) && SpacesBetween(s, i + len, ns) && ns < |s| && IsDigit(s[ns])
    ensures MarkerEndBefore(s, i) == Some(i + len) && SkipSpaces(s, i + len) == ns
  {
    SkipSpacesUnique(s, i + len, ns);
    if len == 4 {
      assert !IsSpace(s[i + 3]);
      SkipSpacesUnique(s, i + 3, i + 3);
    }
  }

  /** Wherever the pattern can match, the scanner finds a match, and it is
      the one the engine keeps: the second alternative has only one
      possible capture, and it keeps the first marker alternative; the first
      alternative captures the longest number, as its greedy quantifiers do
      with nothing after them. */
  lemma MatchAtComplete(s: string, m: Match)
    requires m.start < |s| && PatternMatches(s, m)
    ensures MatchAt(s, m.start).Some?
    ensures MatchAt(s, m.start).value.numStart == m.numStart
    ensures IsDigit(s[m.start]) ==> MatchAt(s, m.start).value.numEnd == m.numEnd
    ensures IsDigit(s[m.start]) ==> MatchAt(s, m.start).value.end <= m.end
    ensures !IsDigit(s[m.start]) ==> m.numEnd <= MatchAt(s, m.start).value.numEnd
  {
    if PrefixForm(s, m, 1) {
      PrefixComplete(s, m, 1);
    } else if PrefixForm(s, m, 3) {
      PrefixComplete(s, m, 3);
    } else if PrefixForm(s, m, 4) {
      PrefixComplete(s, m, 4);
    } else if SuffixForm(s, m, 1) {
      SuffixComplete(s, m, 1);
    } else if SuffixForm(s, m, 3) {
      SuffixComplete(s, m, 3);
    } else {
      SuffixComplete(s, m, 4);
    }
  }

  // ---------------------------------------------------------------------
  // finditer

  /** The matches `finditer` reports from position `from`: it tries each
      position in turn and resumes at the end of every match. */
  function FindIter(s: string, from: nat): (ms: seq<Match>)
    requires from <= |s|
    ensures forall k :: 0 <= k < |ms| ==> Extractable(s, ms[k])
    decreases |s| - from
  {
    if from == |s| then []
    else
      match MatchAt(s, from)
      case None => FindIter(s, from + 1)
      case Some(m) =>
        MatchAtSound(s, from);
        PatternMatchesExtractable(s, m);
        [m] + FindIter(s, m.end)
  }

  /** The reported matches are matches of the pattern, lie left to right
      from `from` on and do not overlap. */
  lemma {:induction false} FindIterSound(s: string, from: nat)
    requires from <= |s|
    ensures SoundMatches(s, from, FindIter(s, from))
    decreases |s| - from
  {
    if from < |s| {
      var next := FindIterNext(s, from);
      FindIterSound(s, next);
      if FindIter(s, from) != FindIter(s, next) {
        var m := FindIter(s, from)[0];
        SoundMatchesCons(s, from, m, FindIter(s, next));
      }
    }
  }

  /** Where `finditer` resumes after trying `from`: one position on, or the
      end of the match found at `from`, which is then the first one
      reported. */
  lemma FindIterNext(s: string, from: nat) returns (next: nat)
    requires from < |s|
    ensures from < next <= |s|
    ensures || FindIter(s, from) == FindIter(s, next)
            || (&& |FindIter(s, from)| > 0
                && FindIter(s, from) == [FindIter(s, from)[0]] + FindIter(s, next)
                && FindIter(s, from)[0].start == from
                && FindIter(s, from)[0].end == next
                && PatternMatches(s, FindIter(s, from)[0]))
  {
    match MatchAt(s, from)
    case None =>
      next := from + 1;
    case Some(m) =>
      MatchAtSound(s, from);
      PatternMatchesExtractable(s, m);
      next := m.end;
      assert FindIter(s, from) == [m] + FindIter(s, m.end);
  }

  /** `ms` are matches of the pattern, left to right from `from` on, without
      overlap. */
  predicate SoundMatches(s: string, from: nat, ms: seq<Match>) {
    MatchesFrom(s, from, ms) && Disjoint(ms)
  }

  /** Every match in `ms` is a match of the pattern at or after `from`. */
  predicate MatchesFrom(s: string, from: nat, ms: seq<Match>) {
    forall k :: 0 <= k < |ms| ==> from <= ms[k].start < ms[k].end <= |s| && PatternMatches(s, ms[k])
  }

  /** Each match ends before the next one starts. */
  predicate Disjoint(ms: seq<Match>) {
    forall k :: 0 <= k < |ms| - 1 ==> ms[k].end <= ms[k + 1].start
  }

  lemma SoundMatchesCons(s: string, from: nat, m: Match, rest: seq<Match>)
    requires from <= m.start < m.end <= |s| && PatternMatches(s, m)
    requires SoundMatches(s, m.end, rest)
    ensures SoundMatches(s, from, [m] + rest)
  {
    MatchesFromCons(s, from, m, rest);
    DisjointCons(m, rest);
  }

  lemma MatchesFromCons(s: string, from: nat, m: Match, rest: seq<Match>)
    requires from <= m.start < m.end <= |s| && PatternMatches(s, m)
    requires MatchesFrom(s, m.end, rest)
    ensures MatchesFrom(s, from, [m] + rest)
  {
    var ms := [m] + rest;
    forall k | 0 <= k < |ms|
      ensures from <= ms[k].start < ms[k].end <= |s| && PatternMatches(s, ms[k])
    {
      if k > 0 {
        assert ms[k] == rest[k - 1];
      }
    }
  }

  lemma DisjointCons(m: Match, rest: seq<Match>)
    requires Disjoint(rest) && (rest != [] ==> m.end <= rest[0].start)
    ensures Disjoint([m] + rest)
  {
    var ms := [m] + rest;
    forall k | 0 <= k < |ms| - 1
      ensures ms[k].end <= ms[k + 1].start
    {
      assert ms[k + 1] == rest[k];
      if k > 0 {
        assert ms[k] == rest[k - 1];
      }
    }
  }

  lemma PatternMatchesExtractable(s: string, m: Match)
    requires PatternMatches(s, m)
    ensures Extractable(s, m) && m.start < m.end
  {
  }

  // ---------------------------------------------------------------------
  // _to_float

  /** A decimal as `float()` reads it here: digits, then optionally a point
      and one or two digits. */
  predicate IsDecimalText(p: string) {
    var k := IndexOf(p, '.');
    1 <= k && AllDigits(p[..k])
    && (k == |p| || (k + 2 <= |p| <= k + 3 && AllDigits(p[k + 1..])))
  }

  /** The value of such a decimal, in hundredths. */
  function DecimalCents(p: string): nat
    requires IsDecimalText(p)
  {
    var k := IndexOf(p, '.');
    DigitsValue(p[..k]) * 100
    + (if k == |p| then 0
       else if |p| == k + 2 then DigitValue(p[k + 1]) * 10
       else DigitsValue(p[k + 1..]))
  }

  /** The euro digits of an N: what precedes the comma, without the dots. */
  function IntDigitsOf(raw: string): string {
    Replace(raw[..IndexOf(raw, ',')], '.', "")
  }

  /** The cent digits of an N: what follows the comma, if there is one. */
  function FracDigitsOf(raw: string): string {
    var c := IndexOf(raw, ',');
    if c == |raw| then [] else raw[c + 1..]
  }

  lemma {:induction false} GroupsChars(u: string)
    requires IsGroupsFracText(u)
    ensures forall x :: 0 <= x < |u| ==> IsNumberChar(u[x])
    decreases |u|
  {
    if !IsFracText(u) {
      GroupsChars(u[4..]);
      forall x | 0 <= x < |u| ensures IsNumberChar(u[x]) {
        if 1 <= x < 4 {
          assert u[x] == u[1..4][x - 1];
        } else if x >= 4 {
          assert u[x] == u[4..][x - 4];
        }
      }
    } else if u != [] {
      forall x | 1 <= x < |u| ensures IsNumberChar(u[x]) {
        assert u[x] == u[1..][x - 1];
      }
    }
  }

  /** An N is made of digits, dots and commas, and starts with a digit. */
  lemma NumberChars(raw: string)
    requires IsNumberText(raw)
    ensures |raw| > 0 && IsDigit(raw[0])
    ensures forall x :: 0 <= x < |raw| ==> IsNumberChar(raw[x])
  {
    var l: nat :| LeadThen(raw, l);
    assert LeadThen(raw, l);
    GroupsChars(raw[l..]);
    forall x | 0 <= x < |raw| ensures IsNumberChar(raw[x]) {
      if x < l {
        assert raw[x] == raw[..l][x];
      } else {
        assert raw[x] == raw[l..][x - l];
      }
    }
    assert raw[0] == raw[..l][0];
  }

  /** Removing the dots from a text of digits and dots leaves digits. */
  lemma {:induction false} DropDotsDigits(x: string)
    requires forall k :: 0 <= k < |x| ==> IsDigit(x[k]) || x[k] == '.'
    ensures AllDigits(Replace(x, '.', ""))
    ensures |x| > 0 && IsDigit(x[0]) ==> |Replace(x, '.', "")| > 0
  {
    if x != [] {
      assert forall k :: 0 <= k < |x[1..]| ==> x[1..][k] == x[k + 1];
      DropDotsDigits(x[1..]);
      var r := Replace(x[1..], '.', "");
      if x[0] != '.' {
        assert Replace(x, '.', "") == [x[0]] + r;
        assert forall k :: 1 <= k < |r| + 1 ==> ([x[0]] + r)[k] == r[k - 1];
      }
    }
  }

  lemma {:induction false} DropDotsValue(x: string, c: char)
    requires c != '.' && c !in x
    ensures c !in Replace(x, '.', "")
  {
    if x != [] {
      assert c !in x[1..] by { assert forall y :: y in x[1..] ==> y in x; }
      DropDotsValue(x[1..], c);
    }
  }

  /** In an N, the first comma is followed by one or two digits and nothing
      else. */
  lemma CommaTail(raw: string)
    requires IsNumberText(raw) && IndexOf(raw, ',') < |raw|
    ensures AllDigits(raw[IndexOf(raw, ',') + 1..]) && 1 <= |raw| - IndexOf(raw, ',') - 1 <= 2
  {
    var c := IndexOf(raw, ',');
    assert forall x :: 0 <= x < c ==> raw[x] != ',' by {
      assert forall x :: 0 <= x < c ==> raw[..c][x] == raw[x];
    }
    var l: nat :| LeadThen(raw, l);
    CommaTailAt(raw, l, c);
  }

  lemma CommaTailAt(raw: string, l: nat, c: nat)
    requires LeadThen(raw, l) && c < |raw| && raw[c] == ','
    requires forall x :: 0 <= x < c ==> raw[x] != ','
    ensures AllDigits(raw[c + 1..]) && 1 <= |raw| - c - 1 <= 2
  {
    assert c >= l by {
      assert forall x :: 0 <= x < l ==> raw[..l][x] == raw[x];
      assert !IsDigit(raw[c]);
    }
    var u := raw[l..];
    var k: nat := c - l;
    assert k < |u| && u[k] == ',';
    assert forall x :: 0 <= x < k ==> u[x] != ',' by {
      assert forall x :: 0 <= x < k ==> u[x] == raw[l + x];
    }
    GroupsCommaTail(u, k);
    assert u[k + 1..] == raw[c + 1..];
  }

  lemma GroupNoComma(u: string)
    requires |u| >= 4 && u[0] == '.' && AllDigits(u[1..4])
    ensures forall x :: 0 <= x < 4 ==> u[x] != ','
  {
    assert forall x :: 1 <= x < 4 ==> u[x] == u[1..4][x - 1];
  }

  lemma {:induction false} GroupsCommaTail(u: string, c: nat)
    requires IsGroupsFracText(u) && c < |u| && u[c] == ','
    requires forall x :: 0 <= x < c ==> u[x] != ','
    ensures AllDigits(u[c + 1..]) && 1 <= |u| - c - 1 <= 2
    decreases |u|
  {
    if IsFracText(u) {
      assert c == 0;
      assert u[c + 1..] == u[1..];
    } else {
      GroupNoComma(u);
      assert c >= 4;
      var v := u[4..];
      assert forall x :: 0 <= x < c - 4 ==> v[x] == u[x + 4];
      GroupsCommaTail(v, c - 4);
      assert v[c - 4 + 1..] == u[c + 1..];
    }
  }

  /** Before the comma of an N: the dots go, and digits remain. */
  lemma PlainBeforeComma(raw: string)
    requires IsNumberText(raw)
    ensures |IntDigitsOf(raw)| >= 1 && AllDigits(IntDigitsOf(raw))
    ensures Replace(Replace(raw[..IndexOf(raw, ',')], '.', ""), ',', ".") == IntDigitsOf(raw)
  {
    var c := IndexOf(raw, ',');
    var before := raw[..c];
    NumberChars(raw);
    assert c > 0;
    assert forall k :: 0 <= k < |before| ==> IsDigit(before[k]) || before[k] == '.' by {
      forall k | 0 <= k < |before| ensures IsDigit(before[k]) || before[k] == '.' {
        assert before[k] == raw[k];
        assert before[k] in before;
      }
    }
    assert before[0] == raw[0];
    DropDotsDigits(before);
    DropDotsValue(before, ',');
    ReplaceAbsent(Replace(before, '.', ""), ',', ".");
  }

  /** From the comma of an N on: a point and the cent digits, or nothing. */
  lemma PlainFromComma(raw: string)
    requires IsNumberText(raw)
    ensures AllDigits(FracDigitsOf(raw)) && |FracDigitsOf(raw)| <= 2
    ensures Replace(Replace(raw[IndexOf(raw, ',')..], '.', ""), ',', ".")
            == if FracDigitsOf(raw) == [] then [] else "." + FracDigitsOf(raw)
  {
    var c := IndexOf(raw, ',');
    if c < |raw| {
      CommaTail(raw);
      var ft := raw[c + 1..];
      assert raw[c..] == [','] + ft;
      assert '.' !in ft && ',' !in ft by {
        assert forall k :: 0 <= k < |ft| ==> IsDigit(ft[k]);
      }
      ReplaceAppend([','], ft, '.', "");
      ReplaceAbsent(ft, '.', "");
      assert Replace([','], '.', "") == [','] by { assert [','][1..] == []; }
      ReplaceAppend([','], ft, ',', ".");
      ReplaceAbsent(ft, ',', ".");
      assert Replace([','], ',', ".") == "." by { assert [','][1..] == []; }
    } else {
      assert raw[c..] == [];
    }
  }

  /** `raw.replace(".", "").replace(",", ".")` of an N is the euro digits,
      then a point and the cent digits when there is a comma. */
  lemma PlainShape(raw: string)
    requires IsNumberText(raw)
    ensures |IntDigitsOf(raw)| >= 1 && AllDigits(IntDigitsOf(raw))
    ensures AllDigits(FracDigitsOf(raw)) && |FracDigitsOf(raw)| <= 2
    ensures Replace(Replace(raw, '.', ""), ',', ".")
            == IntDigitsOf(raw) + (if FracDigitsOf(raw) == [] then [] else "." + FracDigitsOf(raw))
  {
    var c := IndexOf(raw, ',');
    var before, after := raw[..c], raw[c..];
    assert raw == before + after;
    PlainBeforeComma(raw);
    PlainFromComma(raw);
    ReplaceAppend(before, after, '.', "");
    ReplaceAppend(Replace(before, '.', ""), Replace(after, '.', ""), ',', ".");
  }

  lemma IndexOfPrefix(p: string, k: nat, c: char)
    requires k <= |p| && c !in p[..k] && (k == |p| || p[k] == c)
    ensures IndexOf(p, c) == k
  {
  }

  /** The point of the plain form sits right after the euro digits. */
  lemma PlainIsDecimal(d: string, f: string)
    requires |d| >= 1 && AllDigits(d) && AllDigits(f) && |f| <= 2
    ensures var p := d + (if f == [] then [] else "." + f);
            IsDecimalText(p) && IndexOf(p, '.') == |d|
            && p[..|d|] == d && (f != [] ==> p[|d| + 1..] == f)
  {
    var p := d + (if f == [] then [] else "." + f);
    assert '.' !in d by { assert forall k :: 0 <= k < |d| ==> IsDigit(d[k]); }
    assert p[..|d|] == d;
    IndexOfPrefix(p, |d|, '.');
    if f != [] {
      assert p[|d| + 1..] == f;
    }
  }

  /** `_to_float(raw)`, in cents: remove the thousands dots, turn the decimal
      comma into a point, read the decimal. */
  function ToCents(raw: string): nat
    requires IsNumberText(raw)
  {
    PlainShape(raw);
    PlainIsDecimal(IntDigitsOf(raw), FracDigitsOf(raw));
    DecimalCents(Replace(Replace(raw, '.', ""), ',', "."))
  }

  /** The value of an N: the digits before the comma, without the dots, are
      the euros; one digit after the comma counts tens of cents, two count
      cents. */
  lemma ToCentsValue(raw: string)
    requires IsNumberText(raw)
    ensures var d, f := IntDigitsOf(raw), FracDigitsOf(raw);
            AllDigits(d) && AllDigits(f) && |f| <= 2
            && ToCents(raw) == DigitsValue(d) * 100
               + (if |f| == 0 then 0 else if |f| == 1 then DigitValue(f[0]) * 10 else DigitsValue(f))
  {
    PlainShape(raw);
    var d, f := IntDigitsOf(raw), FracDigitsOf(raw);
    PlainIsDecimal(d, f);
    if f != [] {
      var p := d + "." + f;
      assert p[|d| + 1] == f[0];
    }
  }

  // ---------------------------------------------------------------------
  // extract_prices

  function MatchValue(s: string, m: Match): nat
    requires Extractable(s, m)
  {
    ToCents(s[m.numStart..m.numEnd])
  }

  /** The converted captures of `ms`, in order. */
  function PricesOf(s: string, ms: seq<Match>): (r: seq<nat>)
    requires forall k :: 0 <= k < |ms| ==> Extractable(s, ms[k])
    ensures |r| == |ms|
  {
    if ms == [] then [] else [MatchValue(s, ms[0])] + PricesOf(s, ms[1..])
  }

  /** The prices of the matches `finditer` reports from `from` on. */
  function PricesFrom(s: string, from: nat): seq<nat>
    requires from <= |s|
    decreases |s| - from
  {
    if from == |s| then []
    else
      match MatchAt(s, from)
      case None => PricesFrom(s, from + 1)
      case Some(m) =>
        MatchAtSound(s, from);
        PatternMatchesExtractable(s, m);
        [MatchValue(s, m)] + PricesFrom(s, m.end)
  }

  /** All prices of `text`, in order of appearance. */
  function Prices(text: string): seq<nat> {
    PricesFrom(text, 0)
  }

  lemma PricesOfCons(s: string, m: Match, rest: seq<Match>)
    requires Extractable(s, m) && forall k :: 0 <= k < |rest| ==> Extractable(s, rest[k])
    ensures PricesOf(s, [m] + rest) == [MatchValue(s, m)] + PricesOf(s, rest)
  {
    assert ([m] + rest)[0] == m;
    assert ([m] + rest)[1..] == rest;
  }

  /** The prices are the values of the reported matches, one for one and in
      the same order. */
  lemma {:induction false} PricesFromMatches(s: string, from: nat)
    requires from <= |s|
    ensures PricesFrom(s, from) == PricesOf(s, FindIter(s, from))
    decreases |s| - from
  {
    if from < |s| {
      var next := PricesFromNext(s, from);
      PricesFromMatches(s, next);
      if FindIter(s, from) != FindIter(s, next) {
        PricesOfCons(s, FindIter(s, from)[0], FindIter(s, next));
      }
    }
  }

  /** `FindIter` and `PricesFrom` take the same step at `from`. */
  lemma PricesFromNext(s: string, from: nat) returns (next: nat)
    requires from < |s|
    ensures from < next <= |s|
    ensures || (FindIter(s, from) == FindIter(s, next) && PricesFrom(s, from) == PricesFrom(s, next))
            || (&& |FindIter(s, from)| > 0
                && FindIter(s, from) == [FindIter(s, from)[0]] + FindIter(s, next)
                && PricesFrom(s, from) == [MatchValue(s, FindIter(s, from)[0])] + PricesFrom(s, next))
  {
    match MatchAt(s, from)
    case None =>
      next := from + 1;
    case Some(m) =>
      MatchAtSound(s, from);
      next := m.end;
      assert FindIter(s, from) == [m] + FindIter(s, m.end);
  }

  /** Where the scanner finds `m`, its price comes first. */
  lemma PricesFromAtMatch(s: string, from: nat, m: Match)
    requires from < |s| && MatchAt(s, from) == Some(m)
    ensures from < m.end <= |s| && Extractable(s, m)
    ensures PricesFrom(s, from) == [MatchValue(s, m)] + PricesFrom(s, m.end)
  {
    MatchAtSound(s, from);
    PatternMatchesExtractable(s, m);
  }

  /** One attempt of `finditer` at `pos`: the prices it yields (none or
      one) and where the next attempt starts. */
  method ScanStep(text: string, pos: nat) returns (emitted: seq<nat>, next: nat)
    requires pos < |text|
    ensures pos < next <= |text|
    ensures PricesFrom(text, pos) == emitted + PricesFrom(text, next)
  {
    var found := MatchAt(text, pos);
    if found.None? {
      emitted, next := [], pos + 1;
    } else {
      var m := found.value;
      MatchAtSound(text, pos);
      emitted, next := [ToCents(text[m.numStart..m.numEnd])], m.end;
    }
  }

  /** `extract_prices`: walk the matches left to right and append each
      converted capture. */
  method ExtractPrices(text: string) returns (prices: seq<nat>)
    ensures prices == Prices(text)
  {
    prices := [];
    var pos := 0;
    while pos < |text|
      invariant pos <= |text|
      invariant prices + PricesFrom(text, pos) == Prices(text)
      decreases |text| - pos
    {
      var emitted, next := ScanStep(text, pos);
      assert prices + PricesFrom(text, pos) == (prices + emitted) + PricesFrom(text, next);
      prices, pos := prices + emitted, next;
    }
  }

  // ---------------------------------------------------------------------
  // No marker, no price

  /** A currency marker starts at `j` (`euro` starts with `eur`). */
  predicate MarkerAt(s: string, j: nat) {
    j < |s| && (s[j] == EuroSign || EurAt(s, j))
  }

  /** Where the marker of a match sits. */
  function MarkerPos(s: string, m: Match): (j: nat)
    requires PatternMatches(s, m)
    ensures m.start <= j < m.end && MarkerAt(s, j)
  {
    if PrefixForm(s, m, 1) || PrefixForm(s, m, 3) || PrefixForm(s, m, 4) then m.start
    else if SuffixForm(s, m, 1) then m.end - 1
    else if SuffixForm(s, m, 3) then m.end - 3
    else m.end - 4
  }

  /** With no marker from `from` on, `finditer` reports nothing there. */
  lemma NoMarkerNoMatch(s: string, from: nat)
    requires from <= |s|
    requires forall j :: from <= j < |s| ==> !MarkerAt(s, j)
    ensures FindIter(s, from) == []
  {
    var ms := FindIter(s, from);
    FindIterSound(s, from);
    if ms != [] {
      var j := MarkerPos(s, ms[0]);
      assert false;
    }
  }

  /** A text without `€`, `eur` or `euro` (in any case) has no prices; the
      empty text is one. */
  lemma MarkerlessText(s: string)
    requires forall j :: 0 <= j < |s| ==> !MarkerAt(s, j)
    ensures Prices(s) == []
  {
    NoMarkerNoMatch(s, 0);
    PricesFromMatches(s, 0);
  }

  // ---------------------------------------------------------------------
  // Values of some N

  /** Up to three bare digits are an N worth that many euros. */
  lemma ToCentsOfDigits(t: string)
    requires IsDigitString(t) && |t| <= 3
    ensures IsNumberText(t) && ToCents(t) == DigitsValue(t) * 100
  {
    assert t[..|t|] == t && t[|t|..] == [];
    assert LeadThen(t, |t|);
    assert ',' !in t && '.' !in t by {
      assert forall k :: 0 <= k < |t| ==> IsDigit(t[k]);
    }
    IndexOfPrefix(t, |t|, ',');
    ReplaceAbsent(t, '.', "");
    ToCentsValue(t);
  }

  /** `n` euros with a dot before every group of three digits, as the
      pattern writes thousands. */
  function FormatThousands(n: nat): (r: string)
    ensures |r| >= 1 && ',' !in r
    decreases n
  {
    if n < 1000 then
      NatToString(n)
    else
      FormatThousands(n / 1000) + "." + ThreeDigits(n % 1000)
  }

  /** `c` cents as "1.234,56". */
  function FormatEuro(c: nat): string {
    FormatThousands(c / 100) + "," + TwoDigits(c % 100)
  }

  lemma ShortNatToString(n: nat)
    requires n < 1000
    ensures |NatToString(n)| <= 3
  {
    if n >= 10 {
      assert |NatToString(n)| == |NatToString(n / 10)| + 1;
      if n / 10 >= 10 {
        assert |NatToString(n / 10)| == |NatToString(n / 100)| + 1;
      }
    }
  }

  /** `FormatThousands(n)` followed by groups and a fraction is an N. */
  lemma {:induction false} FormatThousandsIsNumber(n: nat, tail: string)
    requires IsGroupsFracText(tail)
    ensures IsNumberText(FormatThousands(n) + tail)
    decreases n
  {
    if n < 1000 {
      ShortNatToString(n);
      LeadThenTail(NatToString(n), tail);
    } else {
      var hi, lo := FormatThousands(n / 1000), ThreeDigits(n % 1000);
      GroupThenTail(lo, tail);
      FormatThousandsIsNumber(n / 1000, "." + lo + tail);
      RegroupTail(FormatThousands(n), hi, lo, tail);
    }
  }

  lemma RegroupTail(x: string, hi: string, lo: string, tail: string)
    requires x == hi + "." + lo
    ensures x + tail == hi + ("." + lo + tail)
  {
  }

  lemma LeadThenTail(lead: string, tail: string)
    requires IsDigitString(lead) && |lead| <= 3 && IsGroupsFracText(tail)
    ensures IsNumberText(lead + tail)
  {
    var t := lead + tail;
    assert t[..|lead|] == lead && t[|lead|..] == tail;
    assert LeadThen(t, |lead|);
  }

  lemma GroupThenTail(lo: string, tail: string)
    requires AllDigits(lo) && |lo| == 3 && IsGroupsFracText(tail)
    ensures IsGroupsFracText("." + lo + tail)
  {
    var g := "." + lo + tail;
    assert g[0] == '.' && g[1..4] == lo && g[4..] == tail;
  }

  /** Without its dots, `FormatThousands(n)` is the decimal digits of `n`. */
  lemma {:induction false} FormatThousandsDigits(n: nat)
    ensures AllDigits(Replace(FormatThousands(n), '.', ""))
    ensures DigitsValue(Replace(FormatThousands(n), '.', "")) == n
    decreases n
  {
    if n < 1000 {
      assert '.' !in NatToString(n) by {
        assert AllDigits(NatToString(n));
      }
      ReplaceAbsent(NatToString(n), '.', "");
    } else {
      FormatThousandsDigits(n / 1000);
      var hi, lo := FormatThousands(n / 1000), ThreeDigits(n % 1000);
      DropGroupDot(hi, lo);
      AppendGroupValue(Replace(hi, '.', ""), lo);
    }
  }

  lemma DropGroupDot(hi: string, lo: string)
    requires AllDigits(lo)
    ensures Replace(hi + "." + lo, '.', "") == Replace(hi, '.', "") + lo
  {
    assert hi + "." + lo == hi + (['.'] + lo);
    assert '.' !in lo by { assert forall k :: 0 <= k < |lo| ==> IsDigit(lo[k]); }
    ReplaceAppend(hi, ['.'] + lo, '.', "");
    ReplaceCons('.', lo, '.', "");
    ReplaceAbsent(lo, '.', "");
    assert Replace(['.'] + lo, '.', "") == "" + lo;
    assert "" + lo == lo;
  }

  lemma AppendGroupValue(d: string, lo: string)
    requires AllDigits(d) && AllDigits(lo) && |lo| == 3
    ensures AllDigits(d + lo) && DigitsValue(d + lo) == DigitsValue(d) * 1000 + DigitsValue(lo)
  {
    assert AllDigits(d + lo) by {
      forall k | 0 <= k < |d + lo| ensures IsDigit((d + lo)[k]) {
        if k < |d| { assert (d + lo)[k] == d[k]; } else { assert (d + lo)[k] == lo[k - |d|]; }
      }
    }
    DigitsValueAppend(d, lo);
    assert Pow10(3) == 1000;
  }

  /** Thousands without a fraction are whole euros: "1.234" is 123400. */
  lemma ToCentsOfThousands(n: nat)
    ensures IsNumberText(FormatThousands(n))
    ensures ToCents(FormatThousands(n)) == n * 100
  {
    var t := FormatThousands(n);
    FormatThousandsIsNumber(n, []);
    assert t + [] == t;
    IndexOfPrefix(t, |t|, ',');
    assert t[..|t|] == t;
    FormatThousandsDigits(n);
    ToCentsValue(t);
  }

  /** `_to_float` reads back what `FormatEuro` writes: "1.234,56" is 123456. */
  lemma ToCentsOfFormatEuro(c: nat)
    ensures IsNumberText(FormatEuro(c))
    ensures ToCents(FormatEuro(c)) == c
  {
    var hi, lo := FormatThousands(c / 100), TwoDigits(c % 100);
    var t := FormatEuro(c);
    assert t == hi + ("," + lo);
    assert IsFracText("," + lo) by {
      assert ("," + lo)[1..] == lo;
    }
    FormatThousandsIsNumber(c / 100, "," + lo);
    assert t[|hi|] == ',';
    assert t[..|hi|] == hi;
    IndexOfPrefix(t, |hi|, ',');
    assert t[|hi| + 1..] == lo;
    FormatThousandsDigits(c / 100);
    ToCentsValue(t);
  }

  // ---------------------------------------------------------------------
  // Whole texts

  lemma MatchAfterEuroSign(t: string)
    requires IsNumberText(t)
    ensures MatchAt([EuroSign] + t, 0) == Some(Match(0, 1, |t| + 1, |t| + 1))
  {
    var s := [EuroSign] + t;
    NumberChars(t);
    assert s[1] == t[0];
    SkipSpacesUnique(s, 1, 1);
    assert MarkerEndBefore(s, 0) == Some(1);
    assert s[1..|s|] == t;
    NumberLongest(s, 1, |s|);
  }

  /** An N right after a euro sign is the one price of the text. */
  lemma PricesAfterEuroSign(t: string)
    requires IsNumberText(t)
    ensures Prices([EuroSign] + t) == [ToCents(t)]
  {
    var s := [EuroSign] + t;
    MatchAfterEuroSign(t);
    assert s[1..|s|] == t;
    assert PricesFrom(s, |s|) == [];
  }

  lemma MatchBeforeEuroSign(t: string)
    requires IsNumberText(t)
    ensures MatchAt(t + [EuroSign], 0) == Some(Match(0, 0, |t|, |t| + 1))
  {
    var s := t + [EuroSign];
    NumberChars(t);
    assert s[0] == t[0];
    assert s[0..|t|] == t;
    NumberLongest(s, 0, |t|);
    assert forall k :: 0 <= k < |t| ==> s[k] == t[k];
    assert !IsNumberChar(s[|t|]);
    NumberEndChars(s, 0);
    assert NumberEnd(s, 0) == |t|;
    SkipSpacesUnique(s, |t|, |t|);
  }

  /** An N right before a euro sign is the one price of the text. */
  lemma PricesBeforeEuroSign(t: string)
    requires IsNumberText(t)
    ensures Prices(t + [EuroSign]) == [ToCents(t)]
  {
    var s := t + [EuroSign];
    MatchBeforeEuroSign(t);
    assert s[0..|t|] == t;
    assert PricesFrom(s, |s|) == [];
  }

  /** "€1.234,56" and "1.234,56€" each have exactly the one price. */
  lemma FormattedAmountPrices(c: nat)
    ensures Prices([EuroSign] + FormatEuro(c)) == [c]
    ensures Prices(FormatEuro(c) + [EuroSign]) == [c]
  {
    ToCentsOfFormatEuro(c);
    PricesAfterEuroSign(FormatEuro(c));
    PricesBeforeEuroSign(FormatEuro(c));
  }

  /** The match cannot take more than three digits before a dot or comma:
      "€1234" is 123 euros, the fourth digit is left behind. */
  lemma EuroSignThenLongNumber(d: string)
    requires IsDigitString(d) && |d| >= 4
    ensures Prices([EuroSign] + d) == [DigitsValue(d[..3]) * 100]
  {
    var s := [EuroSign] + d;
    assert forall k :: 1 <= k < |s| ==> s[k] == d[k - 1];
    SkipSpacesUnique(s, 1, 1);
    assert MarkerEndBefore(s, 0) == Some(1);
    assert LeadEnd(s, 1) == 4;
    assert GroupsEnd(s, 4) == 4;
    assert NumberEnd(s, 1) == 4;
    var m := Match(0, 1, 4, 4);
    assert MatchAt(s, 0) == Some(m);
    assert forall j :: 4 <= j < |s| ==> !MarkerAt(s, j) by {
      forall j | 4 <= j < |s| ensures !MarkerAt(s, j) {
        assert IsDigit(s[j]);
      }
    }
    NoMarkerNoMatch(s, 4);
    PricesFromMatches(s, 4);
    assert s[1..4] == d[..3];
    ToCentsOfDigits(d[..3]);
  }

  /** Before a marker, the match starts at the last three digits: "1234€"
      is 234 euros. */
  lemma LongNumberThenEuroSign(d: string)
    requires IsDigitString(d) && |d| >= 3
    ensures Prices(d + [EuroSign]) == [DigitsValue(d[|d| - 3..]) * 100]
  {
    var s := d + [EuroSign];
    var n := |d|;
    var t := d[n - 3..];
    var m := Match(n - 3, n - 3, n, n + 1);
    assert PricesFrom(s, 0) == PricesFrom(s, n - 3) by {
      assert forall k :: 0 <= k < n ==> s[k] == d[k];
      SkipLeadingDigits(s, n, 0);
    }
    assert PricesFrom(s, n - 3) == [MatchValue(s, m)] by {
      MatchAtLastThreeDigits(d);
      PricesFromAtMatch(s, n - 3, m);
      assert PricesFrom(s, n + 1) == [];
    }
    assert MatchValue(s, m) == DigitsValue(t) * 100 by {
      assert s[n - 3..n] == t;
      assert IsDigitString(t) by {
        assert forall k :: 0 <= k < 3 ==> t[k] == d[n - 3 + k];
      }
      ToCentsOfDigits(t);
    }
  }

  lemma MatchAtLastThreeDigits(d: string)
    requires IsDigitString(d) && |d| >= 3
    ensures MatchAt(d + [EuroSign], |d| - 3) == Some(Match(|d| - 3, |d| - 3, |d|, |d| + 1))
  {
    var s := d + [EuroSign];
    var n := |d|;
    assert forall k :: 0 <= k < n ==> s[k] == d[k];
    assert s[n] == EuroSign;
    assert LeadEnd(s, n - 3) == n;
    assert GroupsEnd(s, n) == n;
    assert NumberEnd(s, n - 3) == n;
    SkipSpacesUnique(s, n, n);
  }

  /** Positions more than three digits before the end of a digit run that
      ends at `n` start no match. */
  lemma {:induction false} SkipLeadingDigits(s: string, n: nat, p: nat)
    requires 3 <= n < |s| && p <= n - 3
    requires forall k :: 0 <= k < n ==> IsDigit(s[k])
    ensures PricesFrom(s, p) == PricesFrom(s, n - 3)
    decreases n - p
  {
    if p < n - 3 {
      NoMatchInsideDigits(s, n, p);
      SkipLeadingDigits(s, n, p + 1);
    }
  }

  lemma NoMatchInsideDigits(s: string, n: nat, p: nat)
    requires 3 <= n < |s| && p < n - 3
    requires forall k :: 0 <= k < n ==> IsDigit(s[k])
    ensures PricesFrom(s, p) == PricesFrom(s, p + 1)
  {
    assert IsDigit(s[p + 1]) && IsDigit(s[p + 2]) && IsDigit(s[p + 3]);
    assert LeadEnd(s, p) == p + 3;
    assert !GroupAt(s, p + 3);
    assert GroupsEnd(s, p + 3) == p + 3;
    assert NumberEnd(s, p) == p + 3;
    SkipSpacesUnique(s, p + 3, p + 3);
    assert !EurAt(s, p + 3);
    assert MatchAt(s, p) == None;
  }
}
