/**
  String helpers shared by the model: Python's `str.split`/`str.join` on a single-character
  separator, decimal rendering of integers, case folding, and the character classes behind
  `str.isidentifier`, `keyword.iskeyword`, `str.isspace` and `str.splitlines`.
  The character classes are ASCII (or Latin-1) approximations of the Unicode tables.
 */
module Strings {

  /** `s.split(sep)`: the pieces between occurrences of `sep`; always at least one piece. */
  function Split(s: string, sep: char): (r: seq<string>)
    ensures |r| >= 1
    ensures forall k :: 0 <= k < |r| ==> sep !in r[k]
  {
    if s == [] then [""]
    else if s[0] == sep then [""] + Split(s[1..], sep)
    else
      var rest := Split(s[1..], sep);
      [[s[0]] + rest[0]] + rest[1..]
  }

  /** `sep.join(cs)`. */
  function Join(cs: seq<string>, sep: char): string
  {
    if |cs| == 0 then ""
    else if |cs| == 1 then cs[0]
    else cs[0] + [sep] + Join(cs[1..], sep)
  }

  /** Joining the pieces of a split gives back the original string. */
  lemma {:induction false} JoinSplit(s: string, sep: char)
    ensures Join(Split(s, sep), sep) == s
  {
    if s == [] {
    } else if s[0] == sep {
      JoinSplit(s[1..], sep);
      assert Split(s, sep) == [""] + Split(s[1..], sep);
      assert s == [sep] + s[1..];
    } else {
      JoinSplit(s[1..], sep);
      var rest := Split(s[1..], sep);
      var r := [[s[0]] + rest[0]] + rest[1..];
      assert Split(s, sep) == r;
      if |rest| == 1 {
        assert Join(r, sep) == [s[0]] + rest[0];
      } else {
        assert r[1..] == rest[1..];
        assert Join(r, sep) == [s[0]] + rest[0] + [sep] + Join(rest[1..], sep);
        assert Join(rest, sep) == rest[0] + [sep] + Join(rest[1..], sep);
      }
    }
  }

  /** Splitting a join of separator-free pieces gives back the pieces. */
  lemma {:induction false} SplitJoin(cs: seq<string>, sep: char)
    requires |cs| >= 1
    requires forall k :: 0 <= k < |cs| ==> sep !in cs[k]
    ensures Split(Join(cs, sep), sep) == cs
  {
    if |cs| == 1 {
      SplitNoSep(cs[0], sep);
    } else {
      SplitJoin(cs[1..], sep);
      SplitPrefix(cs[0], Join(cs[1..], sep), sep);
      assert [cs[0]] + cs[1..] == cs;
    }
  }

  /** A string without the separator splits into itself. */
  lemma {:induction false} SplitNoSep(s: string, sep: char)
    requires sep !in s
    ensures Split(s, sep) == [s]
  {
    if s != [] {
      SplitNoSep(s[1..], sep);
      assert [s[0]] + s[1..] == s;
    }
  }

  /** Splitting `c + [sep] + t` for a separator-free `c` puts `c` in front of the split of `t`. */
  lemma {:induction false} SplitPrefix(c: string, t: string, sep: char)
    requires sep !in c
    ensures Split(c + [sep] + t, sep) == [c] + Split(t, sep)
  {
    if c == [] {
      assert c + [sep] + t == [sep] + t;
      assert ([sep] + t)[1..] == t;
    } else {
      SplitPrefix(c[1..], t, sep);
      assert (c + [sep] + t)[1..] == c[1..] + [sep] + t;
      assert [c[0]] + c[1..] == c;
    }
  }

  /** Joining a concatenation of two non-empty lists puts the separator between their joins. */
  lemma {:induction false} JoinAppend(a: seq<string>, b: seq<string>, sep: char)
    requires |a| >= 1 && |b| >= 1
    ensures Join(a + b, sep) == Join(a, sep) + [sep] + Join(b, sep)
  {
    if |a| == 1 {
      assert (a + b)[1..] == b;
    } else {
      JoinAppend(a[1..], b, sep);
      assert (a + b)[1..] == a[1..] + b;
    }
  }

  /** The join of a non-empty list is empty only if its first piece is. */
  lemma {:induction false} JoinEmpty(cs: seq<string>, sep: char)
    requires |cs| >= 1
    ensures |Join(cs, sep)| >= |cs[0]|
    ensures Join(cs, sep)[..|cs[0]|] == cs[0]
  {
    if |cs| > 1 {
      assert Join(cs, sep) == cs[0] + ([sep] + Join(cs[1..], sep));
    }
  }

  // ----- decimal rendering (`str(i)` for a non-negative int) -----

  function DigitChar(d: nat): char
    requires d < 10
  {
    "0123456789"[d]
  }

  /** `str(n)` for `n >= 0`. */
  function NatToString(n: nat): (r: string)
    ensures |r| >= 1
    ensures forall k :: 0 <= k < |r| ==> '0' <= r[k] <= '9'
  {
    if n < 10 then [DigitChar(n)] else NatToString(n / 10) + [DigitChar(n % 10)]
  }

  function Pow10(k: nat): (r: nat)
    ensures r >= 1
  {
    if k == 0 then 1 else 10 * Pow10(k - 1)
  }

  /** A number of at least `10^k` has more than `k` digits. */
  lemma {:induction false} NatToStringLength(n: nat, k: nat)
    requires n >= Pow10(k)
    ensures |NatToString(n)| > k
  {
    if k > 0 {
      assert n / 10 >= Pow10(k - 1);
      NatToStringLength(n / 10, k - 1);
    }
  }

  // ----- case folding (ASCII approximation of `str.casefold`) -----

  function LowerChar(c: char): char
  {
    if 'A' <= c <= 'Z' then (c as int + 32) as char else c
  }

  /** `s.casefold()`, folding ASCII upper-case letters only. */
  function Fold(s: string): (r: string)
    ensures |r| == |s|
    ensures forall k :: 0 <= k < |s| ==> r[k] == LowerChar(s[k])
  {
    if s == [] then [] else [LowerChar(s[0])] + Fold(s[1..])
  }

  /** A string with no ASCII upper-case letter is its own case fold. */
  lemma FoldLowerCase(s: string)
    requires forall k :: 0 <= k < |s| ==> !('A' <= s[k] <= 'Z')
    ensures Fold(s) == s
  {
  }

  // ----- identifiers and keywords (ASCII approximation of section 2.3 of the Python Language Reference) -----

  predicate IsIdentStart(c: char)
  {
    ('a' <= c <= 'z') || ('A' <= c <= 'Z') || c == '_'
  }

  predicate IsIdentContinue(c: char)
  {
    IsIdentStart(c) || ('0' <= c <= '9')
  }

  /** `s.isidentifier()`. */
  predicate IsIdentifier(s: string)
  {
    |s| >= 1 && IsIdentStart(s[0]) && forall k :: 1 <= k < |s| ==> IsIdentContinue(s[k])
  }

  /** The hard keywords of `keyword.kwlist`. */
  const Keywords: set<string> := {
    "False", "None", "True", "and", "as", "assert", "async", "await", "break", "class",
    "continue", "def", "del", "elif", "else", "except", "finally", "for", "from", "global",
    "if", "import", "in", "is", "lambda", "nonlocal", "not", "or", "pass", "raise",
    "return", "try", "while", "with", "yield"}

  /** `keyword.iskeyword(s)`. */
  predicate IsKeyword(s: string)
  {
    s in Keywords
  }

  // ----- whitespace and line boundaries (`str.isspace`, `str.splitlines`) -----

  /** The characters `str.splitlines` breaks at (`"\r\n"` counts as one break). */
  predicate IsLineBreak(c: char)
  {
    c == '\n' || c == '\r' || c == '\U{0B}' || c == '\U{0C}' || c == '\U{1C}' || c == '\U{1D}'
    || c == '\U{1E}' || c == '\U{85}' || c == '\U{2028}' || c == '\U{2029}'
  }

  /** The Latin-1 whitespace characters of `str.isspace`. */
  predicate IsSpaceChar(c: char)
  {
    c == ' ' || c == '\t' || c == '\U{1F}' || c == '\U{A0}' || IsLineBreak(c)
  }

  /** `s.isspace()`: non-empty and all whitespace. */
  predicate IsSpace(s: string)
  {
    |s| >= 1 && forall k :: 0 <= k < |s| ==> IsSpaceChar(s[k])
  }

  /** `len(s.splitlines())`: one line per line break, plus a last line without a break if any. */
  function LineCount(s: string): (r: nat)
    ensures s == [] ==> r == 0
    ensures s != [] ==> r >= 1
  {
    if s == [] then 0
    else if IsLineBreak(s[0]) then
      var rest := if s[0] == '\r' && |s| >= 2 && s[1] == '\n' then s[2..] else s[1..];
      1 + LineCount(rest)
    else if |s| == 1 then 1
    else LineCount(s[1..])
  }

  /**
    `s` is a single line: not empty, and any line break ends it (a final `"\r\n"` counts as
    one break).
   */
  predicate OneLine(s: string)
  {
    s != []
    && forall k :: 0 <= k < |s| && IsLineBreak(s[k]) ==>
         k == |s| - 1 || (k == |s| - 2 && s[k] == '\r' && s[k + 1] == '\n')
  }

  /** `len(s.splitlines()) == 1` exactly when `s` is a single line. */
  lemma {:induction false} LineCountOne(s: string)
    ensures LineCount(s) == 1 <==> OneLine(s)
    decreases |s|
  {
    if s != [] && !IsLineBreak(s[0]) && |s| >= 2 {
      LineCountOne(s[1..]);
      if OneLine(s[1..]) {
        forall k | 0 <= k < |s| && IsLineBreak(s[k])
          ensures k == |s| - 1 || (k == |s| - 2 && s[k] == '\r' && s[k + 1] == '\n')
        {
          var t := s[1..];
          assert k >= 1 && t[k - 1] == s[k] && IsLineBreak(t[k - 1]);
          if k < |s| - 1 {
            assert t[k] == s[k + 1];
          }
        }
      }
      if OneLine(s) {
        forall k | 0 <= k < |s| - 1 && IsLineBreak(s[1..][k])
          ensures k == |s| - 2 || (k == |s| - 3 && s[1..][k] == '\r' && s[1..][k + 1] == '\n')
        {
          var t := s[1..];
          assert t[k] == s[k + 1] && IsLineBreak(s[k + 1]);
          if k + 2 < |s| {
            assert t[k + 1] == s[k + 2];
          }
        }
      }
    } else if s != [] && IsLineBreak(s[0]) {
      var rest := if s[0] == '\r' && |s| >= 2 && s[1] == '\n' then s[2..] else s[1..];
      if rest != [] {
        assert !(0 == |s| - 1 || (0 == |s| - 2 && s[0] == '\r' && s[1] == '\n'));
      }
    }
  }

  // ----- ordering (`<` on `str`) -----

  /** `a < b` on Python strings: lexicographic by code point, a proper prefix first. */
  predicate StrLt(a: string, b: string)
  {
    if a == [] then b != []
    else if b == [] then false
    else if a[0] != b[0] then a[0] < b[0]
    else StrLt(a[1..], b[1..])
  }

  lemma {:induction false} StrLtIrreflexive(a: string)
    ensures !StrLt(a, a)
  {
    if a != [] {
      StrLtIrreflexive(a[1..]);
    }
  }

  lemma {:induction false} StrLtTotal(a: string, b: string)
    ensures a == b || StrLt(a, b) || StrLt(b, a)
  {
    if a != [] && b != [] && a[0] == b[0] {
      StrLtTotal(a[1..], b[1..]);
      if a[1..] == b[1..] {
        assert a == [a[0]] + a[1..] && b == [b[0]] + b[1..];
      }
    }
  }

  lemma {:induction false} StrLtTransitive(a: string, b: string, c: string)
    requires StrLt(a, b) && StrLt(b, c)
    ensures StrLt(a, c)
  {
    if a != [] && a[0] == b[0] && b[0] == c[0] {
      StrLtTransitive(a[1..], b[1..], c[1..]);
    }
  }
}
