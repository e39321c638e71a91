/**
 * The pieces of Python's `str` behaviour that the ingestion code relies on:
 * whitespace and line-break classes, `strip`, the `\s+` collapse, ASCII case
 * mapping, decimal rendering of integers, `join`, substring search and `title`.
 *
 * Whitespace is Python's full `str.isspace()` class (which `re`'s `\s` also
 * uses). Case mapping and digits are restricted to ASCII.
 */
module Text {
  import opened Wrappers

  /** Python's `str.isspace()`; also the class matched by `\s` in a `re` pattern. */
  predicate IsSpace(c: char) {
    || c == ' '
    || ('\t' <= c <= '\r')
    || ('\U{1c}' <= c <= '\U{1f}')
    || c == '\U{85}' || c == '\U{a0}' || c == '\U{1680}'
    || ('\U{2000}' <= c <= '\U{200a}')
    || c == '\U{2028}' || c == '\U{2029}' || c == '\U{202f}' || c == '\U{205f}' || c == '\U{3000}'
  }

  /** The line boundaries of Python's `str.splitlines()`: \n \v \f \r, \x1c-\x1e, \x85, U+2028, U+2029. */
  predicate IsLineBreak(c: char) {
    || ('\n' <= c <= '\r')
    || ('\U{1c}' <= c <= '\U{1e}')
    || c == '\U{85}' || c == '\U{2028}' || c == '\U{2029}'
  }

  predicate IsDigit(c: char) { '0' <= c <= '9' }
  predicate IsUpperLetter(c: char) { 'A' <= c <= 'Z' }
  predicate IsLowerLetter(c: char) { 'a' <= c <= 'z' }
  predicate IsLetter(c: char) { IsUpperLetter(c) || IsLowerLetter(c) }

  /** A character of `\w`, the class that decides where `\b` sits. */
  predicate IsWordChar(c: char) { IsLetter(c) || IsDigit(c) || c == '_' }

  predicate AllDigits(s: string) { forall i :: 0 <= i < |s| ==> IsDigit(s[i]) }

  predicate Excludes(s: string, c: char) { forall i :: 0 <= i < |s| ==> s[i] != c }

  // ---------------------------------------------------------------------------
  // Case mapping

  function LowerChar(c: char): (d: char)
    ensures !IsUpperLetter(d)
  {
    if IsUpperLetter(c) then (c as int + 32) as char else c
  }

  function UpperChar(c: char): (d: char)
    ensures !IsLowerLetter(d)
  {
    if IsLowerLetter(c) then (c as int - 32) as char else c
  }

  /** `str.lower()` (and `str.casefold()`) on ASCII letters. */
  function Lower(s: string): (r: string)
    ensures |r| == |s|
  {
    seq(|s|, i requires 0 <= i < |s| => LowerChar(s[i]))
  }

  /** `str.upper()` on ASCII letters. */
  function Upper(s: string): (r: string)
    ensures |r| == |s|
  {
    seq(|s|, i requires 0 <= i < |s| => UpperChar(s[i]))
  }

  /**
   * `str.title()`: a letter is upper-cased when the character before it is not
   * a letter, and lower-cased otherwise.
   */
  function TitleFrom(s: string, afterLetter: bool): (r: string)
    ensures |r| == |s|
    ensures forall i :: 0 <= i < |s| ==> UpperChar(r[i]) == UpperChar(s[i])
    ensures |s| > 0 && IsLetter(s[0]) && !afterLetter ==> !IsLowerLetter(r[0])
    ensures |s| > 0 && IsLetter(s[0]) && afterLetter ==> !IsUpperLetter(r[0])
    ensures forall i, j | 0 <= i && j == i + 1 < |s| && IsLetter(s[j]) && !IsLetter(s[i]) :: !IsLowerLetter(r[j])
    ensures forall i, j | 0 <= i && j == i + 1 < |s| && IsLetter(s[j]) && IsLetter(s[i]) :: !IsUpperLetter(r[j])
  {
    if s == [] then []
    else
      var c := if afterLetter then LowerChar(s[0]) else UpperChar(s[0]);
      [c] + TitleFrom(s[1..], IsLetter(s[0]))
  }

  /**
   * r is s title-cased: the same characters up to case, the first letter of
   * each run of letters not lower-case and every other letter not upper-case.
   */
  predicate TitleCased(s: string, r: string) {
    && |r| == |s|
    && (forall i :: 0 <= i < |s| ==> UpperChar(r[i]) == UpperChar(s[i]))
    && (|s| > 0 && IsLetter(s[0]) ==> !IsLowerLetter(r[0]))
    && (forall i, j | 0 <= i && j == i + 1 < |s| && IsLetter(s[j]) && !IsLetter(s[i]) :: !IsLowerLetter(r[j]))
    && (forall i, j | 0 <= i && j == i + 1 < |s| && IsLetter(s[j]) && IsLetter(s[i]) :: !IsUpperLetter(r[j]))
  }

  /** Title-casing is determined: two title-cased forms of s are equal. */
  lemma TitleCasedUnique(s: string, r1: string, r2: string)
    requires TitleCased(s, r1) && TitleCased(s, r2)
    ensures r1 == r2
  {
    forall i | 0 <= i < |s| ensures r1[i] == r2[i] {
      if IsLetter(s[i]) && i > 0 {
        if IsLetter(s[i - 1]) {
          assert !IsUpperLetter(r1[i]) && !IsUpperLetter(r2[i]);
        } else {
          assert !IsLowerLetter(r1[i]) && !IsLowerLetter(r2[i]);
        }
      }
      SameCase(s[i], r1[i], r2[i], IsLetter(s[i]) && (i == 0 || !IsLetter(s[i - 1])));
    }
  }

  /** Two characters with the upper-case form of c and the same case (when c is a letter) are equal. */
  lemma SameCase(c: char, a: char, b: char, upper: bool)
    requires UpperChar(a) == UpperChar(c) && UpperChar(b) == UpperChar(c)
    requires IsLetter(c) && upper ==> !IsLowerLetter(a) && !IsLowerLetter(b)
    requires IsLetter(c) && !upper ==> !IsUpperLetter(a) && !IsUpperLetter(b)
    ensures a == b
  {
  }

  function Title(s: string): (r: string)
    ensures TitleCased(s, r)
    ensures Upper(r) == Upper(s)
  {
    TitleFrom(s, false)
  }

  // ---------------------------------------------------------------------------
  // strip

  function TrimLeft(s: string): (r: string)
    ensures |r| <= |s|
    ensures r == [] || !IsSpace(r[0])
  {
    if s != [] && IsSpace(s[0]) then TrimLeft(s[1..]) else s
  }

  /** What `TrimLeft` keeps is a suffix of its input, and what it drops is whitespace. */
  lemma {:induction false} TrimLeftSuffix(s: string)
    ensures TrimLeft(s) == s[|s| - |TrimLeft(s)|..]
    ensures forall i :: 0 <= i < |s| - |TrimLeft(s)| ==> IsSpace(s[i])
  {
    if s != [] && IsSpace(s[0]) {
      TrimLeftSuffix(s[1..]);
      assert s[1..][|s| - 1 - |TrimLeft(s[1..])|..] == s[|s| - |TrimLeft(s)|..];
      assert forall i :: 1 <= i < |s| ==> s[i] == s[1..][i - 1];
    }
  }

  function TrimRight(s: string): (r: string)
    ensures |r| <= |s|
    ensures r == [] || !IsSpace(r[|r| - 1])
  {
    if s != [] && IsSpace(s[|s| - 1]) then TrimRight(s[..|s| - 1]) else s
  }

  /** What `TrimRight` keeps is a prefix of its input, and what it drops is whitespace. */
  lemma {:induction false} TrimRightPrefix(s: string)
    ensures TrimRight(s) == s[..|TrimRight(s)|]
    ensures forall i :: |TrimRight(s)| <= i < |s| ==> IsSpace(s[i])
  {
    if s != [] && IsSpace(s[|s| - 1]) {
      TrimRightPrefix(s[..|s| - 1]);
    }
  }

  predicate Trimmed(s: string) {
    s == [] || (!IsSpace(s[0]) && !IsSpace(s[|s| - 1]))
  }

  predicate Blank(s: string) {
    forall i :: 0 <= i < |s| ==> IsSpace(s[i])
  }

  /** `str.strip()`: the longest slice of `s` that neither starts nor ends with whitespace. */
  function Strip(s: string): (r: string)
    ensures Trimmed(r)
    ensures |r| <= |s|
    ensures r == [] <==> Blank(s)
    ensures Trimmed(s) ==> r == s
  {
    var t := TrimLeft(s);
    TrimRightPrefix(t);
    StripBlank(s);
    assert Trimmed(s) && s != [] ==> t == s;
    TrimRight(t)
  }

  /** Stripping leaves nothing exactly when the text is all whitespace. */
  lemma StripBlank(s: string)
    ensures TrimRight(TrimLeft(s)) == [] <==> Blank(s)
  {
    var t := TrimLeft(s);
    TrimLeftSuffix(s);
    TrimRightPrefix(t);
    assert forall i :: 0 <= i < |t| ==> t[i] == s[|s| - |t| + i];
  }

  // ---------------------------------------------------------------------------
  // re.sub(r"\s+", " ", v)

  /** Length of the run of whitespace at the start of `s`. */
  function SpaceRun(s: string): (n: nat)
    ensures n <= |s|
    ensures forall i :: 0 <= i < n ==> IsSpace(s[i])
    ensures n == |s| || !IsSpace(s[n])
  {
    if s != [] && IsSpace(s[0]) then 1 + SpaceRun(s[1..]) else 0
  }

  predicate NoDoubleSpace(s: string) {
    forall i, j | 0 <= i && j == i + 1 < |s| :: !(IsSpace(s[i]) && IsSpace(s[j]))
  }

  /** Every whitespace character is a plain space and no two of them are adjacent. */
  predicate SingleSpaced(s: string) {
    && NoDoubleSpace(s)
    && forall i :: 0 <= i < |s| && IsSpace(s[i]) ==> s[i] == ' '
  }

  /** Replace every maximal run of whitespace by one space. */
  function Collapse(s: string): (r: string)
    ensures SingleSpaced(r)
    ensures |r| <= |s|
    ensures s == [] <==> r == []
    ensures s != [] ==> (IsSpace(r[0]) <==> IsSpace(s[0]))
    ensures s != [] ==> (IsSpace(r[|r| - 1]) <==> IsSpace(s[|s| - 1]))
  {
    if s == [] then []
    else if IsSpace(s[0]) then
      var n := SpaceRun(s);
      assert n >= 1;
      " " + Collapse(s[n..])
    else
      [s[0]] + Collapse(s[1..])
  }

  /** A string already in collapsed form is left alone. */
  lemma {:induction false} CollapseFixpoint(s: string)
    requires SingleSpaced(s)
    ensures Collapse(s) == s
  {
    if s != [] {
      assert SingleSpaced(s[1..]) by {
        assert forall i :: 0 <= i < |s[1..]| ==> s[1..][i] == s[i + 1];
      }
      CollapseFixpoint(s[1..]);
      if IsSpace(s[0]) {
        assert SpaceRun(s) == 1 by {
          assert |s| == 1 || !IsSpace(s[1]);
        }
        assert s == " " + s[1..];
      } else {
        assert s == [s[0]] + s[1..];
      }
    }
  }

  /** Stripping a single-spaced string keeps it single-spaced. */
  lemma {:induction false} StripSingleSpaced(s: string)
    requires SingleSpaced(s)
    ensures SingleSpaced(Strip(s))
  {
    var t := TrimLeft(s);
    var r := TrimRight(t);
    TrimLeftSuffix(s);
    TrimRightPrefix(t);
    assert Strip(s) == r;
    var o := |s| - |t|;
    forall i, j | 0 <= i && j == i + 1 < |r| ensures !(IsSpace(r[i]) && IsSpace(r[j])) {
      assert r[i] == t[i] == s[o + i] && r[j] == t[j] == s[o + j];
    }
    forall i | 0 <= i < |r| && IsSpace(r[i]) ensures r[i] == ' ' {
      assert r[i] == t[i] == s[o + i];
    }
  }

  // ---------------------------------------------------------------------------
  // Decimal digits and str(int)

  function DigitValue(c: char): nat
    requires IsDigit(c)
  {
    c as int - '0' as int
  }

  function DigitChar(d: nat): (c: char)
    requires d < 10
    ensures IsDigit(c) && DigitValue(c) == d
  {
    ('0' as int + d) as char
  }

  /** The value of a string of decimal digits, most significant first. */
  function DigitsValue(s: string): nat
    requires AllDigits(s)
  {
    if s == [] then 0 else DigitsValue(s[..|s| - 1]) * 10 + DigitValue(s[|s| - 1])
  }

  /** `str(n)` for a non-negative integer. */
  function NatToString(n: nat): (r: string)
    ensures r != [] && AllDigits(r)
    ensures DigitsValue(r) == n
    decreases n
  {
    if n < 10 then [DigitChar(n)]
    else
      var r := NatToString(n / 10) + [DigitChar(n % 10)];
      assert r[..|r| - 1] == NatToString(n / 10);
      r
  }

  /** `str(i)` for any integer. */
  function IntToString(i: int): (r: string)
    ensures r != []
    ensures i >= 0 <==> IsDigit(r[0])
    ensures forall k :: 0 <= k < |r| ==> IsDigit(r[k]) || (k == 0 && r[k] == '-')
  {
    if i < 0 then "-" + NatToString(-i) else NatToString(i)
  }

  /** Different integers are rendered differently. */
  lemma {:induction false} IntToStringInjective(a: int, b: int)
    ensures IntToString(a) == IntToString(b) ==> a == b
  {
    if IntToString(a) == IntToString(b) {
      if a < 0 && b < 0 {
        assert NatToString(-a) == IntToString(a)[1..] == IntToString(b)[1..] == NatToString(-b);
      }
    }
  }

  // ---------------------------------------------------------------------------
  // sep.join(parts)

  function Join(sep: char, parts: seq<string>): string {
    if |parts| == 0 then ""
    else if |parts| == 1 then parts[0]
    else parts[0] + [sep] + Join(sep, parts[1..])
  }

  /**
   * When no part contains the separator, the joined string determines the parts:
   * equal joins come exactly from equal part lists.
   */
  lemma {:induction false} JoinInjective(sep: char, p: seq<string>, q: seq<string>)
    requires |p| == |q|
    requires forall k :: 0 <= k < |p| ==> Excludes(p[k], sep) && Excludes(q[k], sep)
    ensures Join(sep, p) == Join(sep, q) <==> p == q
  {
    if Join(sep, p) == Join(sep, q) && |p| >= 2 {
      var j := Join(sep, p);
      var a, b := p[0], q[0];
      assert j == a + [sep] + Join(sep, p[1..]);
      assert j == b + [sep] + Join(sep, q[1..]);
      FirstSeparator(a, sep, Join(sep, p[1..]));
      FirstSeparator(b, sep, Join(sep, q[1..]));
      assert a == j[..|a|] == b;
      assert Join(sep, p[1..]) == j[|a| + 1..] == Join(sep, q[1..]);
      JoinInjective(sep, p[1..], q[1..]);
      assert p == [a] + p[1..];
      assert q == [b] + q[1..];
    }
  }

  /** The first separator of `x + [sep] + rest` is the one right after `x`. */
  lemma {:induction false} FirstSeparator(x: string, sep: char, rest: string)
    requires Excludes(x, sep)
    ensures IndexOf(x + [sep] + rest, sep) == Some(|x|)
  {
    var s := x + [sep] + rest;
    assert s[|x|] == sep;
    assert s[..|x|] == x;
  }

  // ---------------------------------------------------------------------------
  // Character-level rewrites and searches

  /** `s` with every character of `drop` deleted (chained `str.replace(c, "")`). */
  function Without(s: string, drop: set<char>): (r: string)
    ensures |r| <= |s|
    ensures (forall i :: 0 <= i < |s| ==> s[i] !in drop) ==> r == s
  {
    if s == [] then []
    else if s[0] in drop then Without(s[1..], drop)
    else [s[0]] + Without(s[1..], drop)
  }

  /** Deleting characters distributes over concatenation. */
  lemma {:induction false} WithoutConcat(a: string, b: string, drop: set<char>)
    ensures Without(a + b, drop) == Without(a, drop) + Without(b, drop)
  {
    if a != [] {
      assert (a + b)[1..] == a[1..] + b;
      WithoutConcat(a[1..], b, drop);
    } else {
      assert a + b == b;
    }
  }

  /** `str.replace(from, to)` for single characters. */
  function ReplaceChar(s: string, from: char, to: char): (r: string)
    ensures |r| == |s|
  {
    seq(|s|, i requires 0 <= i < |s| => if s[i] == from then to else s[i])
  }

  /** `str.find(c)` as an option: the first index holding `c`. */
  function IndexOf(s: string, c: char): (r: Option<nat>)
    ensures r.Some? ==> r.value < |s| && s[r.value] == c && Excludes(s[..r.value], c)
    ensures r.None? ==> Excludes(s, c)
  {
    if s == [] then None
    else if s[0] == c then Some(0)
    else match IndexOf(s[1..], c)
      case None => None
      case Some(k) => Some(k + 1)
  }

  /** Python's `needle in hay` for strings (the empty string is in every string). */
  predicate IsSubstring(needle: string, hay: string) {
    exists i :: 0 <= i <= |hay| - |needle| && OccursAt(needle, hay, i)
  }

  predicate OccursAt(needle: string, hay: string, i: nat)
    requires i + |needle| <= |hay|
  {
    hay[i..i + |needle|] == needle
  }
}
