/**
 * Character classes and string helpers that the analysis borrows from Python:
 * `str.isspace`, `str.strip`, `str.split`, `int` on a digit string and the
 * decimal formatting used by f-strings. Everything is stated for ASCII; a
 * non-ASCII character is never a space, a digit, a letter or a word character
 * here and is left unchanged by case folding.
 */
module Text {

  /** `str.isspace` on ASCII, which is also what `\s` matches: space, tab,
      line feed, vertical tab, form feed, carriage return and the separators
      0x1C to 0x1F. */
  predicate IsSpace(c: char) {
    c == ' ' || (9 <= c as int <= 13) || (28 <= c as int <= 31)
  }

  predicate IsDigit(c: char) {
    '0' <= c <= '9'
  }

  predicate IsLetter(c: char) {
    'a' <= c <= 'z' || 'A' <= c <= 'Z'
  }

  /** `\w` on ASCII. */
  predicate IsWordChar(c: char) {
    IsLetter(c) || IsDigit(c) || c == '_'
  }

  predicate IsDigitString(s: string) {
    |s| > 0 && forall k :: 0 <= k < |s| ==> IsDigit(s[k])
  }

  function ToLower(c: char): char {
    if 'A' <= c <= 'Z' then (c as int - 'A' as int + 'a' as int) as char else c
  }

  /** The text starting at `i` spells `w` when case is ignored (`re.IGNORECASE`). */
  predicate MatchesAt(s: string, i: nat, w: string) {
    i + |w| <= |s| && forall k :: 0 <= k < |w| ==> ToLower(s[i + k]) == ToLower(w[k])
  }

  /** `MatchesAt` for a literal already written in lower case, as the patterns'
      literals are here; `LowerEqMatches` shows the two agree for such a
      literal, so `LowerEq` is the `(?i)` comparison of the patterns. */
  predicate LowerEq(s: string, i: nat, lit: string) {
    i + |lit| <= |s| && forall k :: 0 <= k < |lit| ==> ToLower(s[i + k]) == lit[k]
  }

  lemma LowerEqMatches(s: string, i: nat, lit: string)
    requires forall k :: 0 <= k < |lit| ==> ToLower(lit[k]) == lit[k]
    ensures LowerEq(s, i, lit) <==> MatchesAt(s, i, lit)
  {
  }

  // ---------------------------------------------------------------------------
  // str.strip()

  /** The end of the run of spaces that starts at `i`. */
  function SpacesEnd(s: string, i: nat): (k: nat)
    requires i <= |s|
    ensures i <= k <= |s|
    ensures forall m :: i <= m < k ==> IsSpace(s[m])
    ensures k < |s| ==> !IsSpace(s[k])
    decreases |s| - i
  {
    if i < |s| && IsSpace(s[i]) then SpacesEnd(s, i + 1) else i
  }

  /** The start of the run of spaces that ends at `j`, not going below `i`. */
  function SpacesStart(s: string, i: nat, j: nat): (k: nat)
    requires i <= j <= |s|
    ensures i <= k <= j
    ensures forall m :: k <= m < j ==> IsSpace(s[m])
    ensures k > i ==> !IsSpace(s[k - 1])
    decreases j
  {
    if j > i && IsSpace(s[j - 1]) then SpacesStart(s, i, j - 1) else j
  }

  /** `s.strip()`: the slice of `s` between its leading and its trailing spaces. */
  function Strip(s: string): (r: string)
    ensures |r| <= |s|
    ensures r != [] ==> !IsSpace(r[0]) && !IsSpace(r[|r| - 1])
    ensures r == [] <==> forall k :: 0 <= k < |s| ==> IsSpace(s[k])
  {
    var i := SpacesEnd(s, 0);
    s[i..SpacesStart(s, i, |s|)]
  }

  /** What `strip()` removes: the stripped line is `s[i..j]`, where `s[..i]`
      and `s[j..]` are all spaces and, unless nothing is left, the kept slice
      begins and ends with a non-space. */
  lemma StripRemovesOuterSpaces(s: string) returns (i: nat, j: nat)
    ensures i <= j <= |s| && Strip(s) == s[i..j]
    ensures forall m :: 0 <= m < i ==> IsSpace(s[m])
    ensures forall m :: j <= m < |s| ==> IsSpace(s[m])
    ensures i < j ==> !IsSpace(s[i]) && !IsSpace(s[j - 1])
  {
    i := SpacesEnd(s, 0);
    j := SpacesStart(s, i, |s|);
  }

  /** Stripping twice is stripping once. */
  lemma StripIdempotent(s: string)
    ensures Strip(Strip(s)) == Strip(s)
  {
    var r := Strip(s);
    if r != [] {
      assert SpacesEnd(r, 0) == 0;
      assert SpacesStart(r, 0, |r|) == |r|;
    }
  }

  // ---------------------------------------------------------------------------
  // str.split(sep) and sep.join(parts) for a one-character separator

  /** `s.split(sep)`: never empty, and no part holds the separator. */
  function SplitOn(s: string, sep: char): (parts: seq<string>)
    ensures |parts| >= 1
    ensures forall i :: 0 <= i < |parts| ==> sep !in parts[i]
    decreases |s|
  {
    if s == [] then [[]]
    else
      var rest := SplitOn(s[1..], sep);
      if s[0] == sep then [[]] + rest
      else [[s[0]] + rest[0]] + rest[1..]
  }

  /** Every character of a part comes from the text that was split. */
  lemma {:induction false} SplitChars(s: string, sep: char, i: nat, c: char)
    requires i < |SplitOn(s, sep)| && c in SplitOn(s, sep)[i]
    ensures c in s
    decreases |s|
  {
    var rest := SplitOn(s[1..], sep);
    if s[0] == sep {
      SplitChars(s[1..], sep, i - 1, c);
    } else if i == 0 {
      if c != s[0] {
        SplitChars(s[1..], sep, 0, c);
      }
    } else {
      SplitChars(s[1..], sep, i, c);
    }
  }

  /** `sep.join(parts)`. */
  function JoinOn(parts: seq<string>, sep: string): string
    requires |parts| >= 1
    decreases |parts|
  {
    if |parts| == 1 then parts[0] else parts[0] + sep + JoinOn(parts[1..], sep)
  }

  lemma JoinConsFirst(c: char, parts: seq<string>, sep: string)
    requires |parts| >= 1
    ensures JoinOn([[c] + parts[0]] + parts[1..], sep) == [c] + JoinOn(parts, sep)
  {
    var ps := [[c] + parts[0]] + parts[1..];
    assert ps[1..] == parts[1..];
  }

  /** Joining the parts of a split gives the original text back. */
  lemma {:induction false} JoinSplit(s: string, sep: char)
    ensures JoinOn(SplitOn(s, sep), [sep]) == s
    decreases |s|
  {
    if s != [] {
      JoinSplit(s[1..], sep);
      var rest := SplitOn(s[1..], sep);
      if s[0] == sep {
        assert ([[]] + rest)[1..] == rest;
        assert JoinOn([[]] + rest, [sep]) == [sep] + s[1..];
      } else {
        JoinConsFirst(s[0], rest, [sep]);
        assert [s[0]] + s[1..] == s;
      }
    }
  }

  /** Splitting text that starts with a separator-free piece `a`. */
  lemma {:induction false} SplitPrefix(a: string, t: string, sep: char)
    requires sep !in a
    ensures SplitOn(a + t, sep) == [a + SplitOn(t, sep)[0]] + SplitOn(t, sep)[1..]
    decreases |a|
  {
    if a != [] {
      assert (a + t)[1..] == a[1..] + t;
      SplitPrefix(a[1..], t, sep);
      assert [a[0]] + (a[1..] + SplitOn(t, sep)[0]) == a + SplitOn(t, sep)[0];
    } else {
      assert a + t == t;
      assert a + SplitOn(t, sep)[0] == SplitOn(t, sep)[0];
    }
  }

  /** Splitting a join of separator-free parts gives the parts back. */
  lemma {:induction false} SplitJoin(parts: seq<string>, sep: char)
    requires |parts| >= 1
    requires forall i :: 0 <= i < |parts| ==> sep !in parts[i]
    ensures SplitOn(JoinOn(parts, [sep]), sep) == parts
    decreases |parts|
  {
    if |parts| == 1 {
      assert parts[0] + [] == parts[0];
      SplitPrefix(parts[0], [], sep);
      assert SplitOn([], sep) == [[]];
    } else {
      var t := JoinOn(parts[1..], [sep]);
      SplitJoin(parts[1..], sep);
      assert parts[0] + [sep] + t == parts[0] + ([sep] + t);
      SplitPrefix(parts[0], [sep] + t, sep);
      assert ([sep] + t)[1..] == t;
      assert SplitOn([sep] + t, sep) == [[]] + parts[1..];
      assert parts[0] + [] == parts[0];
      assert [parts[0]] + parts[1..] == parts;
    }
  }

  /** `text.split('\n')`. */
  function SplitLines(text: string): (lines: seq<string>)
    ensures |lines| >= 1
    ensures forall i :: 0 <= i < |lines| ==> '\n' !in lines[i]
  {
    SplitOn(text, '\n')
  }

  // ---------------------------------------------------------------------------
  // int(digits) and the decimal text of a natural number

  function DigitValue(c: char): nat
    requires IsDigit(c)
  {
    c as int - '0' as int
  }

  function DigitChar(d: nat): (c: char)
    requires d < 10
    ensures IsDigit(c) && DigitValue(c) == d
  {
    ('0' as int + d) as char
  }

  /** `int(ds)` for a string of ASCII digits (leading zeros allowed). */
  function DigitsValue(ds: string): nat
    requires forall k :: 0 <= k < |ds| ==> IsDigit(ds[k])
    decreases |ds|
  {
    if ds == [] then 0 else 10 * DigitsValue(ds[..|ds| - 1]) + DigitValue(ds[|ds| - 1])
  }

  /** `str(n)`: the shortest decimal numeral of `n`. */
  function Decimal(n: nat): (r: string)
    ensures IsDigitString(r)
    ensures r[0] == '0' ==> n == 0 && r == "0"
    decreases n
  {
    if n < 10 then [DigitChar(n)] else Decimal(n / 10) + [DigitChar(n % 10)]
  }

  /** `int(str(n)) == n`. */
  lemma {:induction false} DecimalRoundTrip(n: nat)
    ensures DigitsValue(Decimal(n)) == n
    decreases n
  {
    if n >= 10 {
      var r := Decimal(n);
      assert r[..|r| - 1] == Decimal(n / 10);
      DecimalRoundTrip(n / 10);
    }
  }

  /** Distinct numbers have distinct numerals. */
  lemma DecimalInjective(a: nat, b: nat)
    requires Decimal(a) == Decimal(b)
    ensures a == b
  {
    DecimalRoundTrip(a);
    DecimalRoundTrip(b);
  }
}
