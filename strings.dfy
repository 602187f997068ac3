/**
 * The parts of Python's `str` that the bot relies on, restricted to ASCII:
 * character classes, `lower()`, `strip()`, `startswith`, `in`, `split`,
 * `str(int)` and `int(str)`. Every other module builds on these, so each
 * one is defined here once.
 */
module Strings {
  import opened Wrappers

  /** `\d` of the regular expressions and `str.isdigit()`, on ASCII. */
  predicate IsDigit(c: char) {
    '0' <= c <= '9'
  }

  /** `\s` of the regular expressions and `str.isspace()`, on ASCII: tab,
      line feed, vertical tab, form feed and carriage return (9 to 13), the
      four separators 28 to 31, and the space (32). */
  predicate IsSpace(c: char) {
    ('\t' <= c <= '\r') || ('\U{1C}' <= c <= ' ')
  }

  predicate IsUpper(c: char) {
    'A' <= c <= 'Z'
  }

  predicate IsLowerLetter(c: char) {
    'a' <= c <= 'z'
  }

  predicate IsLetter(c: char) {
    IsUpper(c) || IsLowerLetter(c)
  }

  predicate AllDigits(s: string) {
    forall k :: 0 <= k < |s| ==> IsDigit(s[k])
  }

  /** `str.isdigit()`: at least one character, all of them digits. */
  predicate IsDigitString(s: string) {
    |s| > 0 && AllDigits(s)
  }

  function LowerChar(c: char): (r: char)
    ensures !IsUpper(r)
    ensures IsDigit(r) <==> IsDigit(c)
    ensures IsSpace(r) <==> IsSpace(c)
    ensures IsLetter(r) <==> IsLetter(c)
    ensures !IsUpper(c) ==> r == c
  {
    if IsUpper(c) then ((c as int) + 32) as char else c
  }

  /** `str.lower()` */
  function Lower(s: string): (r: string)
    ensures |r| == |s|
    ensures forall k :: 0 <= k < |s| ==> r[k] == LowerChar(s[k])
  {
    seq(|s|, k requires 0 <= k < |s| => LowerChar(s[k]))
  }

  lemma LowerIdempotent(s: string)
    ensures Lower(Lower(s)) == Lower(s)
  {
  }

  /** `str.lstrip()` */
  function StripLeft(s: string): (r: string)
    ensures |r| <= |s| && r == s[|s| - |r|..]
    ensures r == [] || !IsSpace(r[0])
  {
    if s != [] && IsSpace(s[0]) then StripLeft(s[1..]) else s
  }

  /** Only whitespace is cut off on the left. */
  lemma {:induction false} StripLeftSpaces(s: string)
    ensures forall k :: 0 <= k < |s| - |StripLeft(s)| ==> IsSpace(s[k])
    decreases |s|
  {
    if s != [] && IsSpace(s[0]) {
      StripLeftSpaces(s[1..]);
    }
  }

  /** `str.rstrip()` */
  function StripRight(s: string): (r: string)
    ensures |r| <= |s| && r == s[..|r|]
    ensures r == [] || !IsSpace(r[|r| - 1])
  {
    if s != [] && IsSpace(s[|s| - 1]) then StripRight(s[..|s| - 1]) else s
  }

  /** One white-space character on each side of a word is stripped. */
  lemma StripPadded(d: string, sp: char)
    requires |d| > 0 && !IsSpace(d[0]) && !IsSpace(d[|d| - 1]) && IsSpace(sp)
    ensures Strip([sp] + d + [sp]) == d
  {
    var tail := d + [sp];
    var s := [sp] + tail;
    assert s == [sp] + d + [sp];
    assert StripLeft(s) == tail by {
      assert s[1..] == tail;
      assert StripLeft(s) == StripLeft(tail);
      assert tail[0] == d[0];
    }
    assert StripRight(tail) == d by {
      assert tail[..|tail| - 1] == d;
    }
  }

  /** Only whitespace is cut off on the right. */
  lemma {:induction false} StripRightSpaces(s: string)
    ensures forall k :: |StripRight(s)| <= k < |s| ==> IsSpace(s[k])
    decreases |s|
  {
    if s != [] && IsSpace(s[|s| - 1]) {
      StripRightSpaces(s[..|s| - 1]);
    }
  }

  /** `str.strip()`: the result is a slice of `s` that neither starts nor ends
      with whitespace, and only whitespace was cut off. */
  function Strip(s: string): (r: string)
    ensures |r| <= |s|
    ensures r == [] || (!IsSpace(r[0]) && !IsSpace(r[|r| - 1]))
    ensures (s == [] || (!IsSpace(s[0]) && !IsSpace(s[|s| - 1]))) ==> r == s
  {
    StripRight(StripLeft(s))
  }

  /** What `strip()` keeps is one slice of the input. */
  lemma StripIsSlice(s: string) returns (a: nat)
    ensures a + |Strip(s)| <= |s| && Strip(s) == s[a..a + |Strip(s)|]
  {
    var l := StripLeft(s);
    a := |s| - |l|;
    assert l == s[a..];
  }

  /** `str.lower()` works character by character. */
  lemma LowerAppend(a: string, b: string)
    ensures Lower(a + b) == Lower(a) + Lower(b)
  {
  }

  /** `s.startswith(p)` */
  predicate StartsWith(s: string, p: string) {
    |p| <= |s| && s[..|p|] == p
  }

  /** `pat in text` for strings: some slice of `text` equals `pat`. */
  predicate ContainsAt(text: string, pat: string, i: nat) {
    i + |pat| <= |text| && text[i..i + |pat|] == pat
  }

  function Contains(text: string, pat: string): (b: bool)
    ensures b <==> exists i: nat :: ContainsAt(text, pat, i)
  {
    ContainsFrom(text, pat, 0)
  }

  function ContainsFrom(text: string, pat: string, from: nat): (b: bool)
    ensures b <==> exists i: nat :: from <= i && ContainsAt(text, pat, i)
    decreases |text| - from
  {
    if from + |pat| > |text| then
      assert forall i: nat :: from <= i ==> !ContainsAt(text, pat, i);
      false
    else if text[from..from + |pat|] == pat then
      assert ContainsAt(text, pat, from);
      true
    else
      var rest := ContainsFrom(text, pat, from + 1);
      assert forall i: nat :: from <= i && ContainsAt(text, pat, i) ==> from + 1 <= i;
      rest
  }

  /** `s.replace(a, b)` for a one-character `a`. */
  function Replace(s: string, a: char, b: string): (r: string)
    ensures a !in b ==> a !in r
  {
    if s == [] then [] else (if s[0] == a then b else [s[0]]) + Replace(s[1..], a, b)
  }

  lemma ReplaceCons(c: char, rest: string, a: char, b: string)
    ensures Replace([c] + rest, a, b) == (if c == a then b else [c]) + Replace(rest, a, b)
  {
    assert ([c] + rest)[0] == c && ([c] + rest)[1..] == rest;
  }

  lemma {:induction false} ReplaceAppend(x: string, y: string, a: char, b: string)
    ensures Replace(x + y, a, b) == Replace(x, a, b) + Replace(y, a, b)
  {
    if x == [] {
      assert x + y == y;
    } else {
      assert (x + y)[0] == x[0] && (x + y)[1..] == x[1..] + y;
      ReplaceAppend(x[1..], y, a, b);
    }
  }

  /** Replacing a character that does not occur changes nothing. */
  lemma {:induction false} ReplaceAbsent(s: string, a: char, b: string)
    requires a !in s
    ensures Replace(s, a, b) == s
  {
    if s != [] {
      assert s[0] != a;
      assert a !in s[1..] by { assert forall c :: c in s[1..] ==> c in s; }
      ReplaceAbsent(s[1..], a, b);
      assert [s[0]] + s[1..] == s;
    }
  }

  /** The index of the first `c` in `s`, or `|s|` when there is none. */
  function IndexOf(s: string, c: char): (k: nat)
    ensures k <= |s|
    ensures c !in s[..k]
    ensures k < |s| ==> s[k] == c
  {
    if s == [] then 0
    else if s[0] == c then 0
    else
      var k := 1 + IndexOf(s[1..], c);
      assert s[..k] == [s[0]] + s[1..][..k - 1];
      k
  }

  // ---------------------------------------------------------------------
  // Decimal digits

  function DigitValue(c: char): nat
    requires IsDigit(c)
  {
    (c as int) - ('0' as int)
  }

  function DigitChar(d: nat): (c: char)
    requires d < 10
    ensures IsDigit(c) && DigitValue(c) == d
  {
    ((d + '0' as int) as char)
  }

  /** The value of a string of decimal digits, read left to right. */
  function DigitsValue(s: string): nat
    requires AllDigits(s)
  {
    if s == [] then 0 else DigitsValue(s[..|s| - 1]) * 10 + DigitValue(s[|s| - 1])
  }

  function Pow10(k: nat): (p: nat)
    ensures p >= 1
  {
    if k == 0 then 1 else 10 * Pow10(k - 1)
  }

  /** Reading two digit strings one after the other. */
  lemma AllDigitsAppend(a: string, b: string)
    requires AllDigits(a) && AllDigits(b)
    ensures AllDigits(a + b)
  {
    assert forall k :: 0 <= k < |a + b| ==> (a + b)[k] == if k < |a| then a[k] else b[k - |a|];
  }

  lemma {:induction false} DigitsValueAppend(a: string, b: string)
    requires AllDigits(a) && AllDigits(b)
    ensures AllDigits(a + b)
    ensures DigitsValue(a + b) == DigitsValue(a) * Pow10(|b|) + DigitsValue(b)
  {
    AllDigitsAppend(a, b);
    if b == [] {
      assert a + b == a;
    } else {
      var b' := b[..|b| - 1];
      var d := DigitValue(b[|b| - 1]);
      DigitsValueAppend(a, b');
      assert DigitsValue(a + b) == DigitsValue(a + b') * 10 + d by {
        assert (a + b)[..|a + b| - 1] == a + b';
        assert (a + b)[|a + b| - 1] == b[|b| - 1];
      }
      var x, p, y := DigitsValue(a), Pow10(|b'|), DigitsValue(b');
      assert DigitsValue(b) == y * 10 + d;
      assert Pow10(|b|) == p * 10;
      ShiftDigit(x, p, y, d);
    }
  }

  lemma ShiftDigit(x: int, p: int, y: int, d: int)
    ensures (x * p + y) * 10 + d == x * (p * 10) + (y * 10 + d)
  {
  }

  /** `str(n)` for n >= 0: the canonical decimal form, read back as `n`. */
  function NatToString(n: nat): (r: string)
    ensures |r| >= 1 && AllDigits(r)
    ensures DigitsValue(r) == n
    ensures r[0] != '0' || n == 0
    ensures n < 10 ==> |r| == 1
  {
    if n < 10 then
      [DigitChar(n)]
    else
      var p := NatToString(n / 10);
      var r := p + [DigitChar(n % 10)];
      assert r[..|r| - 1] == p;
      r
  }

  /** `str(n)` */
  function IntToString(n: int): (r: string)
    ensures |r| >= 1
    ensures n >= 0 ==> r == NatToString(n)
    ensures n < 0 ==> r == "-" + NatToString(-n)
  {
    if n < 0 then "-" + NatToString(-n) else NatToString(n)
  }

  /** Two digits, zero-padded: the `{:02}` of a value below 100. */
  function TwoDigits(n: nat): (r: string)
    requires n < 100
    ensures |r| == 2 && AllDigits(r) && DigitsValue(r) == n
  {
    var r := [DigitChar(n / 10), DigitChar(n % 10)];
    assert r[..1] == [r[0]] && [r[0]][..0] == [];
    assert DigitsValue(r[..1]) == n / 10;
    r
  }

  /** Three digits, zero-padded. */
  function ThreeDigits(n: nat): (r: string)
    requires n < 1000
    ensures |r| == 3 && AllDigits(r) && DigitsValue(r) == n
  {
    var r := [DigitChar(n / 100), DigitChar(n / 10 % 10), DigitChar(n % 10)];
    assert r[..2] == [r[0], r[1]] && r[..2][..1] == [r[0]] && [r[0]][..0] == [];
    assert DigitsValue(r[..2][..1]) == n / 100;
    assert DigitsValue(r[..2]) == n / 10;
    r
  }

  // ---------------------------------------------------------------------
  // int(str)

  /** The body of a Python integer literal: digits, with single underscores
      allowed between two digits (`1_000`). */
  predicate IsUnderscoredDigits(s: string) {
    |s| > 0 && IsDigit(s[0]) && IsDigit(s[|s| - 1])
    && (forall k :: 0 <= k < |s| ==> IsDigit(s[k]) || s[k] == '_')
    && (forall k :: 0 <= k < |s| - 1 ==> !(s[k] == '_' && s[k + 1] == '_'))
  }

  function RemoveUnderscores(s: string): (r: string)
    requires forall k :: 0 <= k < |s| ==> IsDigit(s[k]) || s[k] == '_'
    ensures AllDigits(r)
    ensures AllDigits(s) ==> r == s
  {
    if s == [] then []
    else if s[0] == '_' then RemoveUnderscores(s[1..])
    else [s[0]] + RemoveUnderscores(s[1..])
  }

  /** A sign and the underscored digits after it. */
  predicate IsSignedDigits(t: string) {
    |t| > 0 && (t[0] == '+' || t[0] == '-') && IsUnderscoredDigits(t[1..])
  }

  /** What `int()` makes of a text without surrounding whitespace: digits
      with single underscores between them, at most one sign before them. */
  function ReadInteger(t: string): (r: Option<int>)
    ensures r.Some? <==> IsUnderscoredDigits(t) || IsSignedDigits(t)
  {
    if IsSignedDigits(t) then
      var v: int := DigitsValue(RemoveUnderscores(t[1..]));
      Some(if t[0] == '-' then -v else v)
    else if IsUnderscoredDigits(t) then
      Some(DigitsValue(RemoveUnderscores(t)))
    else None
  }

  /** `int(s)` in base 10: surrounding whitespace, one optional sign, digits
      with single underscores between them; anything else raises ValueError,
      which is `None` here. */
  function ParseInt(s: string): (r: Option<int>)
    ensures IsDigitString(s) ==> r == Some(DigitsValue(s))
  {
    if IsDigitString(s) then
      assert Strip(s) == s;
      assert !IsSignedDigits(s) by {
        assert IsDigit(s[0]);
      }
      DigitsAreUnderscored(s);
      ReadInteger(Strip(s))
    else ReadInteger(Strip(s))
  }

  lemma ParseIntOfToString(n: int)
    ensures ParseInt(IntToString(n)) == Some(n)
  {
    if n >= 0 {
      assert IsDigitString(NatToString(n));
    } else {
      ParseIntOfNegative(n);
    }
  }

  lemma ParseIntOfNegative(n: int)
    requires n < 0
    ensures ParseInt(IntToString(n)) == Some(n)
  {
    var d := NatToString(-n);
    var s := IntToString(n);
    assert s[0] == '-' && s[1..] == d;
    ParseNegativeDigits(s, d);
  }

  /** `int(s)` of a minus sign followed by the digits `d` is minus their value. */
  lemma ParseNegativeDigits(s: string, d: string)
    requires |s| > 1 && s[0] == '-' && s[1..] == d && IsDigitString(d)
    ensures ParseInt(s) == Some(-(DigitsValue(d) as int))
  {
    assert !IsSpace(s[|s| - 1]) by {
      assert s[|s| - 1] == d[|d| - 1];
    }
    DigitsAreUnderscored(d);
    ParseIntNegative(s, d);
  }

  /** The branch of `int(s)` for a minus sign before digits. */
  lemma ParseIntNegative(s: string, d: string)
    requires |s| > 1 && s[0] == '-' && !IsSpace(s[|s| - 1]) && s[1..] == d
    requires IsUnderscoredDigits(d) && RemoveUnderscores(d) == d
    ensures ParseInt(s) == Some(-(DigitsValue(d) as int))
  {
    assert !IsDigitString(s) by {
      assert !IsDigit(s[0]);
    }
    assert Strip(s) == s;
  }

  lemma DigitsAreUnderscored(d: string)
    requires IsDigitString(d)
    ensures IsUnderscoredDigits(d) && RemoveUnderscores(d) == d
  {
  }

  /** `int(s)` over every input: it reads the whitespace-stripped text `t`,
      succeeds exactly when `t` is underscored digits with at most one sign
      before them, gives their value, negated after `-`, and raises
      ValueError on everything else. */
  lemma ParseIntSpec(s: string)
    ensures var t := Strip(s);
      && (ParseInt(s).Some? <==> IsUnderscoredDigits(t) || IsSignedDigits(t))
      && (IsUnderscoredDigits(t) ==> ParseInt(s) == Some(DigitsValue(RemoveUnderscores(t)) as int))
      && (IsSignedDigits(t) && t[0] == '+' ==>
            ParseInt(s) == Some(DigitsValue(RemoveUnderscores(t[1..])) as int))
      && (IsSignedDigits(t) && t[0] == '-' ==>
            ParseInt(s) == Some(-(DigitsValue(RemoveUnderscores(t[1..])) as int)))
  {
    var t := Strip(s);
    assert ParseInt(s) == ReadInteger(t);
    if IsSignedDigits(t) {
      assert !IsUnderscoredDigits(t) by {
        assert !IsDigit(t[0]);
      }
    }
  }

  /** Whitespace around the text never changes what `int()` reads. */
  lemma ParseIntStrip(s: string)
    ensures ParseInt(s) == ParseInt(Strip(s))
  {
    var t := Strip(s);
    assert Strip(t) == t;
    assert ParseInt(s) == ReadInteger(t);
    assert ParseInt(t) == ReadInteger(Strip(t));
  }

  /** Whitespace on both sides of the digits is ignored. */
  lemma ParseIntPadded(d: string, sp: char)
    requires IsDigitString(d) && IsSpace(sp)
    ensures ParseInt([sp] + d + [sp]) == Some(DigitsValue(d) as int)
  {
    StripPadded(d, sp);
    ParseIntStrip([sp] + d + [sp]);
  }

  /** A plus sign before the digits is accepted and changes nothing. */
  lemma ParseIntPlus(d: string)
    requires IsDigitString(d)
    ensures ParseInt(['+'] + d) == Some(DigitsValue(d) as int)
  {
    var t := ['+'] + d;
    assert t[|t| - 1] == d[|d| - 1];
    assert Strip(t) == t;
    assert t[1..] == d;
    DigitsAreUnderscored(d);
    ParseIntSpec(t);
  }

  /** An underscore between two runs of digits is skipped. */
  lemma ParseIntUnderscore(a: string, b: string)
    requires IsDigitString(a) && IsDigitString(b)
    ensures ParseInt(a + ['_'] + b) == Some(DigitsValue(a + b) as int)
  {
    var t := a + ['_'] + b;
    assert t[0] == a[0] && t[|t| - 1] == b[|b| - 1];
    assert Strip(t) == t;
    assert forall k :: 0 <= k < |t| ==> IsDigit(t[k]) || t[k] == '_' by {
      forall k | 0 <= k < |t|
        ensures IsDigit(t[k]) || t[k] == '_'
      {
        if k > |a| {
          assert t[k] == b[k - |a| - 1];
        }
      }
    }
    assert forall k :: 0 <= k < |t| - 1 ==> !(t[k] == '_' && t[k + 1] == '_') by {
      forall k | 0 <= k < |t| - 1
        ensures !(t[k] == '_' && t[k + 1] == '_')
      {
        if k < |a| {
          assert IsDigit(t[k]);
        } else {
          assert t[k + 1] == b[k - |a|];
        }
      }
    }
    assert IsUnderscoredDigits(t);
    RemoveUnderscoreBetween(a, b);
    ParseIntSpec(t);
  }

  lemma {:induction false} RemoveUnderscoreBetween(a: string, b: string)
    requires AllDigits(a) && AllDigits(b)
    ensures (forall k :: 0 <= k < |a + ['_'] + b| ==> IsDigit((a + ['_'] + b)[k]) || (a + ['_'] + b)[k] == '_')
    ensures RemoveUnderscores(a + ['_'] + b) == a + b
    decreases |a|
  {
    var t := a + ['_'] + b;
    assert forall k :: 0 <= k < |t| ==> IsDigit(t[k]) || t[k] == '_' by {
      forall k | 0 <= k < |t|
        ensures IsDigit(t[k]) || t[k] == '_'
      {
        if k > |a| {
          assert t[k] == b[k - |a| - 1];
        }
      }
    }
    if a == [] {
      assert t == ['_'] + b;
      assert t[1..] == b;
    } else {
      RemoveUnderscoreBetween(a[1..], b);
      assert t[0] == a[0] && t[1..] == a[1..] + ['_'] + b;
      assert a + b == [a[0]] + (a[1..] + b);
    }
  }

  /** The inputs `int()` refuses, read on the whitespace-stripped text: an
      empty one, one that starts with an underscore, two underscores in a
      row, and whitespace between the sign and the digits. */
  lemma ParseIntRejects(s: string)
    ensures var t := Strip(s);
      && (t == [] ==> ParseInt(s) == None)
      && (|t| > 0 && t[0] == '_' ==> ParseInt(s) == None)
      && (forall k :: 0 <= k < |t| - 1 && t[k] == '_' && t[k + 1] == '_' ==> ParseInt(s) == None)
      && (|t| > 1 && (t[0] == '+' || t[0] == '-') && IsSpace(t[1]) ==> ParseInt(s) == None)
  {
    var t := Strip(s);
    ParseIntSpec(s);
    if |t| > 1 && (t[0] == '+' || t[0] == '-') && IsSpace(t[1]) {
      assert !IsUnderscoredDigits(t[1..]) by {
        assert t[1..][0] == t[1];
      }
    }
  }

  // ---------------------------------------------------------------------
  // str.split / str.join with a one-character separator

  /** `s.split(sep)`: never empty; "" gives [""]; two adjacent separators
      give an empty piece. */
  function Split(s: string, sep: char): (r: seq<string>)
    ensures |r| >= 1
    ensures forall k :: 0 <= k < |r| ==> sep !in r[k]
    decreases |s|
  {
    if s == [] then [""]
    else
      var rest := Split(s[1..], sep);
      if s[0] == sep then [""] + rest
      else [[s[0]] + rest[0]] + rest[1..]
  }

  /** A string without the separator is one piece. */
  lemma {:induction false} SplitNoSeparator(s: string, sep: char)
    requires sep !in s
    ensures Split(s, sep) == [s]
    decreases |s|
  {
    if s != [] {
      SplitNoSeparator(s[1..], sep);
      assert [s[0]] + s[1..] == s;
    }
  }

  /** `sep.join(parts)` */
  function Join(parts: seq<string>, sep: char): string {
    if parts == [] then ""
    else if |parts| == 1 then parts[0]
    else parts[0] + [sep] + Join(parts[1..], sep)
  }

  /** Splitting undoes joining, as long as no piece holds the separator. */
  lemma {:induction false} SplitJoin(parts: seq<string>, sep: char)
    requires |parts| >= 1
    requires forall k :: 0 <= k < |parts| ==> sep !in parts[k]
    ensures Split(Join(parts, sep), sep) == parts
    decreases |parts|, |parts[0]|
  {
    if parts[0] == [] {
      if |parts| == 1 {
      } else {
        var j := Join(parts, sep);
        assert j == [sep] + Join(parts[1..], sep);
        assert j[1..] == Join(parts[1..], sep);
        SplitJoin(parts[1..], sep);
        assert Split(j, sep) == [""] + parts[1..];
      }
    } else {
      var p0 := parts[0];
      var parts' := [p0[1..]] + parts[1..];
      assert parts'[1..] == parts[1..];
      assert forall k :: 0 <= k < |parts'| ==> sep !in parts'[k] by {
        forall k | 0 <= k < |parts'| ensures sep !in parts'[k] {
          if k == 0 {
            assert forall c :: c in p0[1..] ==> c in p0;
          } else {
            assert parts'[k] == parts[k];
          }
        }
      }
      SplitJoin(parts', sep);
      var j := Join(parts, sep);
      var j' := Join(parts', sep);
      if |parts| == 1 {
        assert j == p0 && j' == p0[1..];
      } else {
        assert j == p0 + [sep] + Join(parts[1..], sep);
        assert j' == p0[1..] + [sep] + Join(parts[1..], sep);
      }
      assert j[0] == p0[0] && j[1..] == j';
      assert p0[0] != sep by { assert p0[0] in p0; }
      var rest := Split(j', sep);
      assert rest == parts';
      assert [p0[0]] + p0[1..] == p0;
    }
  }

  /** The last piece of a split is what follows the last separator. */
  lemma {:induction false} SplitLastPiece(a: string, b: string, sep: char)
    requires sep !in b
    ensures |Split(a + [sep] + b, sep)| >= 2
    ensures Split(a + [sep] + b, sep)[|Split(a + [sep] + b, sep)| - 1] == b
    decreases |a|
  {
    var s := a + [sep] + b;
    SplitNoSeparator(b, sep);
    if a == [] {
      assert s[0] == sep && s[1..] == b;
    } else {
      assert s[0] == a[0] && s[1..] == a[1..] + [sep] + b;
      SplitLastPiece(a[1..], b, sep);
    }
  }

  // ---------------------------------------------------------------------
  // Truthiness, slicing and ordering

  /** An optional string as Python tests it: set and not empty. */
  predicate Truthy(o: Option<string>) {
    o.Some? && o.value != ""
  }

  /** `s[:n]` */
  function Take(s: string, n: nat): (r: string)
    ensures |r| <= n && |r| <= |s| && r == s[..|r|]
    ensures |s| <= n ==> r == s
    ensures n <= |s| ==> |r| == n
  {
    if |s| <= n then s else s[..n]
  }

  /** `a <= b` on Python strings: code-point lexicographic order. */
  predicate StrLe(a: string, b: string) {
    a == [] || (b != [] && (a[0] < b[0] || (a[0] == b[0] && StrLe(a[1..], b[1..]))))
  }

  lemma {:induction false} StrLeTotal(a: string, b: string)
    ensures StrLe(a, b) || StrLe(b, a)
    decreases |a|
  {
    if a != [] && b != [] && a[0] == b[0] {
      StrLeTotal(a[1..], b[1..]);
    }
  }

  lemma {:induction false} StrLeTrans(a: string, b: string, c: string)
    requires StrLe(a, b) && StrLe(b, c)
    ensures StrLe(a, c)
    decreases |a|
  {
    if a != [] && a[0] == b[0] && b[0] == c[0] {
      StrLeTrans(a[1..], b[1..], c[1..]);
    }
  }

  lemma {:induction false} StrLeAntisym(a: string, b: string)
    requires StrLe(a, b) && StrLe(b, a)
    ensures a == b
    decreases |a|
  {
    if a != [] {
      StrLeAntisym(a[1..], b[1..]);
      assert a == [a[0]] + a[1..] && b == [b[0]] + b[1..];
    }
  }
}
