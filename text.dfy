/** The few Python string operations the core relies on: `str.strip()`,
    `not s.strip()`, `str.split(sep)`, `sep.join(parts)`, ASCII `lower()` /
    `upper()`, `startswith` and `int(s)`. */
module Text {
  import opened Common

  /** `c.isspace()` for the ASCII and Latin-1 characters: the C0 white space,
      the four information separators, NEL and NO-BREAK SPACE. */
  predicate IsSpace(c: char) {
    c == ' ' || ('\t' <= c <= '\r') || ('\U{1C}' <= c <= '\U{1F}') || c == '\U{85}' || c == '\U{A0}'
  }

  /** `not s.strip()`: the string is empty or holds only white space. */
  predicate IsBlank(s: string) {
    forall i :: 0 <= i < |s| ==> IsSpace(s[i])
  }

  /** Number of white-space characters at the front of `s`. */
  function LeadingSpaces(s: string): (k: nat)
    ensures k <= |s|
  {
    if s == [] || !IsSpace(s[0]) then 0 else 1 + LeadingSpaces(s[1..])
  }

  /** Number of white-space characters at the end of `s`. */
  function TrailingSpaces(s: string): (k: nat)
    ensures k <= |s|
  {
    if s == [] || !IsSpace(s[|s| - 1]) then 0 else 1 + TrailingSpaces(s[..|s| - 1])
  }

  /** The leading run is white space and ends at a character that is not. */
  lemma {:induction false} LeadingRun(s: string)
    ensures forall i :: 0 <= i < LeadingSpaces(s) ==> IsSpace(s[i])
    ensures LeadingSpaces(s) < |s| ==> !IsSpace(s[LeadingSpaces(s)])
  {
    if s != [] && IsSpace(s[0]) {
      LeadingRun(s[1..]);
      forall i | 0 < i < LeadingSpaces(s)
        ensures IsSpace(s[i])
      {
        assert s[i] == s[1..][i - 1];
      }
    }
  }

  /** The trailing run is white space and is preceded by a character that is
      not. */
  lemma {:induction false} TrailingRun(s: string)
    ensures forall i :: |s| - TrailingSpaces(s) <= i < |s| ==> IsSpace(s[i])
    ensures TrailingSpaces(s) < |s| ==> !IsSpace(s[|s| - 1 - TrailingSpaces(s)])
  {
    if s != [] && IsSpace(s[|s| - 1]) {
      var init := s[..|s| - 1];
      TrailingRun(init);
      forall i | |s| - TrailingSpaces(s) <= i < |s| - 1
        ensures IsSpace(s[i])
      {
        assert s[i] == init[i];
      }
    }
  }

  /** `s.strip()`. */
  function Strip(s: string): string {
    var t := s[LeadingSpaces(s)..];
    t[..|t| - TrailingSpaces(t)]
  }

  /** `r` is the slice of `s` starting at `a`, it neither starts nor ends with
      white space, and everything around it in `s` is white space. */
  predicate TrimmedAt(s: string, a: nat, r: string) {
    && a + |r| <= |s| && r == s[a..a + |r|]
    && (forall i :: 0 <= i < a ==> IsSpace(s[i]))
    && (forall i :: a + |r| <= i < |s| ==> IsSpace(s[i]))
    && (r != [] ==> !IsSpace(r[0]) && !IsSpace(r[|r| - 1]))
  }

  /** `s.strip()` removes exactly the white space at both ends: what it keeps is
      the slice of `s` after the leading blanks, it neither starts nor ends with
      white space, and everything cut off on either side was white space. */
  lemma StripIsTrimmedSlice(s: string)
    ensures TrimmedAt(s, LeadingSpaces(s), Strip(s))
  {
    var a := LeadingSpaces(s);
    var k := TrailingSpaces(s[a..]);
    LeadingRun(s);
    TrailingRunAfter(s, a);
    SliceOfSuffix(s, a, |s| - a - k);
    TrimmedSlice(s, a, k, Strip(s));
  }

  /** What remains between a leading and a trailing run of white space, each
      ending at a character that is not. */
  lemma TrimmedSlice(s: string, a: nat, k: nat, r: string)
    requires a + k <= |s| && r == s[a..|s| - k]
    requires forall i :: 0 <= i < a ==> IsSpace(s[i])
    requires a < |s| ==> !IsSpace(s[a])
    requires forall i :: |s| - k <= i < |s| ==> IsSpace(s[i])
    requires k < |s| - a ==> !IsSpace(s[|s| - 1 - k])
    ensures TrimmedAt(s, a, r)
  {
    assert |r| == |s| - a - k;
    if r != [] {
      assert r[0] == s[a] && r[|r| - 1] == s[|s| - 1 - k];
    }
  }

  lemma SliceOfSuffix<T>(s: seq<T>, a: nat, n: nat)
    requires a + n <= |s|
    ensures s[a..][..n] == s[a..a + n]
  {
  }

  /** The trailing run of `s[a..]`, seen as positions of `s`. */
  lemma TrailingRunAfter(s: string, a: nat)
    requires a <= |s|
    ensures var k := TrailingSpaces(s[a..]);
      && (forall i :: |s| - k <= i < |s| ==> IsSpace(s[i]))
      && (k < |s| - a ==> !IsSpace(s[|s| - 1 - k]))
  {
    var t := s[a..];
    var k := TrailingSpaces(t);
    TrailingRun(t);
    forall i | |s| - k <= i < |s|
      ensures IsSpace(s[i])
    {
      assert s[i] == t[i - a];
    }
    if k < |s| - a {
      assert s[|s| - 1 - k] == t[|t| - 1 - k];
    }
  }

  /** A string with no white space at either end is its own strip. */
  lemma StripUnchanged(s: string)
    requires s != [] && !IsSpace(s[0]) && !IsSpace(s[|s| - 1])
    ensures Strip(s) == s
  {
    assert LeadingSpaces(s) == 0 && s[0..] == s;
  }

  /** `not s.strip()` holds exactly when `s.strip()` is empty. */
  lemma BlankIffStripEmpty(s: string)
    ensures IsBlank(s) <==> Strip(s) == ""
  {
    StripIsTrimmedSlice(s);
    var a := LeadingSpaces(s);
    if Strip(s) == "" {
      forall i | 0 <= i < |s| ensures IsSpace(s[i]) {
        if i >= a { assert a + |Strip(s)| <= i; }
      }
    } else {
      assert a < |s| && !IsSpace(s[a]);
    }
  }

  /** Stripping twice is stripping once. */
  lemma StripIdempotent(s: string)
    ensures Strip(Strip(s)) == Strip(s)
  {
    StripIsTrimmedSlice(s);
    var r := Strip(s);
    if r != [] {
      assert LeadingSpaces(r) == 0;
      assert TrailingSpaces(r) == 0;
    }
  }

  function LowerChar(c: char): (d: char)
    ensures 'A' <= c <= 'Z' ==> d as int == c as int + 32
    ensures !('A' <= c <= 'Z') ==> d == c
  {
    if 'A' <= c <= 'Z' then (c as int + 32) as char else c
  }

  function UpperChar(c: char): (d: char)
    ensures 'a' <= c <= 'z' ==> d as int == c as int - 32
    ensures !('a' <= c <= 'z') ==> d == c
  {
    if 'a' <= c <= 'z' then (c as int - 32) as char else c
  }

  /** `s.lower()` on ASCII letters; every other character is kept. */
  function Lower(s: string): (r: string)
    ensures |r| == |s|
    ensures forall i :: 0 <= i < |s| ==> r[i] == LowerChar(s[i])
  {
    if s == [] then [] else [LowerChar(s[0])] + Lower(s[1..])
  }

  /** `s.upper()` on ASCII letters; every other character is kept. */
  function Upper(s: string): (r: string)
    ensures |r| == |s|
    ensures forall i :: 0 <= i < |s| ==> r[i] == UpperChar(s[i])
  {
    if s == [] then [] else [UpperChar(s[0])] + Upper(s[1..])
  }

  /** `s.split(sep)` for a one-character separator: the pieces between the
      separators, empty pieces included. */
  function Split(s: string, sep: char): (parts: seq<string>)
    ensures |parts| >= 1
    ensures forall i :: 0 <= i < |parts| ==> sep !in parts[i]
  {
    if s == [] then [""]
    else
      var rest := Split(s[1..], sep);
      if s[0] == sep then [""] + rest else [[s[0]] + rest[0]] + rest[1..]
  }

  /** `sep.join(parts)`. */
  function Join(parts: seq<string>, sep: char): string {
    if parts == [] then ""
    else if |parts| == 1 then parts[0]
    else parts[0] + [sep] + Join(parts[1..], sep)
  }

  /** Joining the pieces of a split gives back the original string. */
  lemma {:induction false} JoinSplit(s: string, sep: char)
    ensures Join(Split(s, sep), sep) == s
  {
    if s != [] {
      var rest := Split(s[1..], sep);
      JoinSplit(s[1..], sep);
      if s[0] == sep {
        assert Split(s, sep) == [""] + rest;
      } else {
        var p := Split(s, sep);
        assert p == [[s[0]] + rest[0]] + rest[1..];
        if |rest| == 1 {
          assert Join(p, sep) == [s[0]] + rest[0];
        } else {
          assert Join(rest, sep) == rest[0] + [sep] + Join(rest[1..], sep);
          assert p[1..] == rest[1..];
        }
      }
    }
  }

  /** Splitting a join of separator-free pieces gives back the pieces. */
  lemma {:induction false} SplitJoin(parts: seq<string>, sep: char)
    requires |parts| >= 1
    requires forall i :: 0 <= i < |parts| ==> sep !in parts[i]
    ensures Split(Join(parts, sep), sep) == parts
  {
    if |parts| == 1 {
      SplitPlain(parts[0], sep);
    } else {
      SplitJoin(parts[1..], sep);
      SplitAround(parts[0], Join(parts[1..], sep), sep);
    }
  }

  /** A string without the separator splits into itself. */
  lemma {:induction false} SplitPlain(s: string, sep: char)
    requires sep !in s
    ensures Split(s, sep) == [s]
  {
    if s != [] {
      SplitPlain(s[1..], sep);
      assert [s[0]] + s[1..] == s;
    }
  }

  /** Splitting `a + sep + b`, where `a` has no separator, puts `a` first. */
  lemma {:induction false} SplitAround(a: string, b: string, sep: char)
    requires sep !in a
    ensures Split(a + [sep] + b, sep) == [a] + Split(b, sep)
  {
    if a == [] {
      assert [sep] + b == a + [sep] + b;
      assert ([sep] + b)[1..] == b;
    } else {
      SplitAround(a[1..], b, sep);
      var s := a + [sep] + b;
      assert s[0] == a[0] && s[1..] == a[1..] + [sep] + b;
      var rest := Split(s[1..], sep);
      assert rest[0] == a[1..] && rest[1..] == Split(b, sep);
      assert [a[0]] + a[1..] == a;
    }
  }

  predicate IsDigit(c: char) { '0' <= c <= '9' }

  predicate AllDigits(s: string) { forall i :: 0 <= i < |s| ==> IsDigit(s[i]) }

  /** The decimal value of a string of digits. */
  function DigitsValue(s: string): (n: nat)
    requires AllDigits(s)
  {
    if s == [] then 0 else 10 * DigitsValue(s[..|s| - 1]) + (s[|s| - 1] as int - '0' as int)
  }

  /** `int(s)` for a decimal string: surrounding white space is ignored, one
      optional sign, then at least one digit; anything else raises (here,
      `None`). Digit-group underscores are not modelled. */
  function ParseInt(s: string): (n: Option<int>)
    ensures n.Some? ==> Strip(s) != ""
  {
    var t := Strip(s);
    if t == [] then None
    else if (t[0] == '-' || t[0] == '+') && |t| > 1 && AllDigits(t[1..]) then
      var v: int := DigitsValue(t[1..]);
      Some(if t[0] == '-' then -v else v)
    else if AllDigits(t) then Some(DigitsValue(t))
    else None
  }

  /** What `int(s)` accepts and what it yields: after stripping, a run of
      digits gives its decimal value, a `+` or `-` followed by a run of digits
      gives that value or its negation, and every other string is rejected. */
  lemma ParseIntMeaning(s: string)
    ensures var t := Strip(s);
      ParseInt(s).Some? <==>
        (|t| >= 1 && AllDigits(t)) || (|t| >= 2 && (t[0] == '-' || t[0] == '+') && AllDigits(t[1..]))
    ensures var t := Strip(s); |t| >= 1 && AllDigits(t) ==> ParseInt(s) == Some(DigitsValue(t))
    ensures var t := Strip(s);
      |t| >= 2 && t[0] == '+' && AllDigits(t[1..]) ==> ParseInt(s) == Some(DigitsValue(t[1..]))
    ensures var t := Strip(s);
      |t| >= 2 && t[0] == '-' && AllDigits(t[1..]) ==> ParseInt(s) == Some(-(DigitsValue(t[1..]) as int))
  {
  }

  /** The decimal digits of a natural number, most significant first, with
      no leading zeros (`str(n)` for `n >= 0`). */
  function Decimal(n: nat): (s: string)
    ensures |s| >= 1 && AllDigits(s)
    ensures |s| >= 2 ==> s[0] != '0'
  {
    if n < 10 then [('0' as int + n) as char]
    else Decimal(n / 10) + [('0' as int + n % 10) as char]
  }

  /** `str(n)` for any integer: a minus sign before the digits of `-n` when
      `n` is negative. */
  function IntString(n: int): string {
    if n < 0 then "-" + Decimal(-n) else Decimal(n)
  }

  /** The digits `Decimal` writes read back as the number. */
  lemma {:induction false} DecimalValue(n: nat)
    ensures DigitsValue(Decimal(n)) == n
  {
    if n >= 10 {
      DecimalValue(n / 10);
      var s := Decimal(n);
      assert s[..|s| - 1] == Decimal(n / 10);
    }
  }

  /** `int(str(n)) == n`: parsing gives back every integer it is shown. */
  lemma ParseIntOfIntString(n: int)
    ensures ParseInt(IntString(n)) == Some(n)
  {
    if n >= 0 {
      DecimalValue(n);
      ParseDecimal(Decimal(n));
    } else {
      var d := Decimal(-n);
      DecimalValue(-n);
      var t := "-" + d;
      assert t[1..] == d && t[|t| - 1] == d[|d| - 1] && IsDigit(d[|d| - 1]);
      StripUnchanged(t);
    }
  }

  /** `int()` of a non-empty string of decimal digits is its value. */
  lemma ParseDecimal(s: string)
    requires |s| >= 1 && AllDigits(s)
    ensures ParseInt(s) == Some(DigitsValue(s))
  {
    assert IsDigit(s[0]) && IsDigit(s[|s| - 1]);
    StripUnchanged(s);
  }
}
