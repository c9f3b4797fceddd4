/** The string operations of Python that the indexer and the query engine rely on:
    `str.split('\n')`, `sep.join(...)`, `str.strip()`, `str.split()` (whitespace words),
    `str.isalpha()`, `str.lower()`, `str(int)` and `int(digits)`.
    Characters are limited to their ASCII meaning (see README). */
module Text {
  import opened Seqs

  // ---------------------------------------------------------------------------
  // Character classes
  // ---------------------------------------------------------------------------

  /** Whitespace as Python's `str.split()`, `str.strip()` and the regex `\s` see it (ASCII part). */
  predicate IsSpace(c: char) { c in Spaces }

  const Spaces: set<char> := {' ', '\t', '\n', '\r', '\U{000B}', '\U{000C}', '\U{001C}', '\U{001D}', '\U{001E}', '\U{001F}'}

  predicate IsDigit(c: char) { '0' <= c <= '9' }

  predicate IsUpper(c: char) { 'A' <= c <= 'Z' }

  predicate IsLetter(c: char) { IsUpper(c) || 'a' <= c <= 'z' }

  predicate AllSpace(s: string) { forall k :: 0 <= k < |s| ==> IsSpace(s[k]) }

  predicate NoSpace(s: string) { forall k :: 0 <= k < |s| ==> !IsSpace(s[k]) }

  predicate AllDigits(s: string) { forall k :: 0 <= k < |s| ==> IsDigit(s[k]) }

  // ---------------------------------------------------------------------------
  // str.split('\n') and sep.join(parts)
  // ---------------------------------------------------------------------------

  /** The first position of `c` in `s`. */
  function IndexOf(s: string, c: char): (i: nat)
    requires c in s
    ensures i < |s| && s[i] == c && c !in s[..i]
  {
    if s[0] == c then 0 else 1 + IndexOf(s[1..], c)
  }

  /** `sep.join(parts)`. */
  function Join(sep: string, parts: seq<string>): string
  {
    if |parts| == 0 then ""
    else if |parts| == 1 then parts[0]
    else parts[0] + sep + Join(sep, parts[1..])
  }

  /** Joining one more part adds the separator and the part at the end. */
  lemma {:induction false} JoinAppend(sep: string, parts: seq<string>, p: string)
    requires parts != []
    ensures Join(sep, parts + [p]) == Join(sep, parts) + sep + p
  {
    if |parts| > 1 {
      assert (parts + [p])[1..] == parts[1..] + [p];
      JoinAppend(sep, parts[1..], p);
    }
  }

  /** The first part is a prefix of the joined text. */
  lemma JoinPrefix(sep: string, parts: seq<string>)
    requires parts != []
    ensures |parts[0]| <= |Join(sep, parts)| && Join(sep, parts)[..|parts[0]|] == parts[0]
  {
  }

  /** `s.split('\n')`: always at least one piece, and no piece holds a newline. */
  function SplitLines(s: string): (r: seq<string>)
    ensures |r| >= 1
    ensures forall k :: 0 <= k < |r| ==> '\n' !in r[k]
    decreases |s|
  {
    if '\n' in s then
      var i := IndexOf(s, '\n');
      [s[..i]] + SplitLines(s[i + 1..])
    else
      [s]
  }

  /** Joining the lines of `s` with newlines gives `s` back. */
  lemma {:induction false} JoinSplitLines(s: string)
    ensures Join("\n", SplitLines(s)) == s
    decreases |s|
  {
    if '\n' in s {
      var i := IndexOf(s, '\n');
      JoinSplitLines(s[i + 1..]);
      assert SplitLines(s) == [s[..i]] + SplitLines(s[i + 1..]);
      assert s == s[..i] + "\n" + s[i + 1..];
    }
  }

  /** Splitting newline-free lines joined by newlines gives the lines back. */
  lemma {:induction false} SplitJoinLines(lines: seq<string>)
    requires |lines| >= 1
    requires forall k :: 0 <= k < |lines| ==> '\n' !in lines[k]
    ensures SplitLines(Join("\n", lines)) == lines
  {
    if |lines| > 1 {
      var s := Join("\n", lines);
      assert s == lines[0] + "\n" + Join("\n", lines[1..]);
      assert s[|lines[0]|] == '\n';
      assert s[..|lines[0]|] == lines[0];
      assert IndexOf(s, '\n') == |lines[0]|;
      assert s[|lines[0]| + 1..] == Join("\n", lines[1..]);
      SplitJoinLines(lines[1..]);
    }
  }

  // ---------------------------------------------------------------------------
  // str.strip()
  // ---------------------------------------------------------------------------

  /** `s.lstrip()`: the suffix of `s` left after dropping leading whitespace. */
  function LStrip(s: string): (r: string)
    ensures |r| <= |s| && r == s[|s| - |r|..]
    ensures AllSpace(s[..|s| - |r|])
    ensures r == [] || !IsSpace(r[0])
  {
    if s != [] && IsSpace(s[0]) then
      var t := s[1..];
      var r := LStrip(t);
      assert r == s[|s| - |r|..] by {
        assert t[|t| - |r|..] == s[|s| - |r|..];
      }
      assert AllSpace(s[..|s| - |r|]) by {
        forall k | 0 <= k < |s| - |r| ensures IsSpace(s[k]) {
          if k > 0 {
            assert t[..|t| - |r|][k - 1] == s[k];
          }
        }
      }
      r
    else s
  }

  /** `s.rstrip()`: the prefix of `s` left after dropping trailing whitespace. */
  function RStrip(s: string): (r: string)
    ensures |r| <= |s| && r == s[..|r|]
    ensures AllSpace(s[|r|..])
    ensures r == [] || !IsSpace(r[|r| - 1])
  {
    if s != [] && IsSpace(s[|s| - 1]) then
      var t := s[..|s| - 1];
      var r := RStrip(t);
      assert r == s[..|r|] by {
        assert t[..|r|] == s[..|r|];
      }
      assert AllSpace(s[|r|..]) by {
        forall k | |r| <= k < |s| ensures IsSpace(s[k]) {
          if k < |s| - 1 {
            assert t[|r|..][k - |r|] == s[k];
          }
        }
      }
      r
    else s
  }

  /** The whitespace `LStrip` removes is exactly the run before the first other character. */
  lemma {:induction false} LStripSkips(s: string, m: nat)
    requires m < |s| && AllSpace(s[..m]) && !IsSpace(s[m])
    ensures |s| - |LStrip(s)| == m
    decreases m
  {
    if m > 0 {
      assert IsSpace(s[0]) by { assert s[..m][0] == s[0]; }
      var v := s[1..][..m - 1];
      assert AllSpace(v) by {
        forall k | 0 <= k < |v| ensures IsSpace(v[k]) {
          assert v[k] == s[..m][k + 1];
        }
      }
      LStripSkips(s[1..], m - 1);
    }
  }

  /** `s.strip()`: an infix of `s` with no whitespace at either end, empty exactly
      when `s` is all whitespace. */
  function Strip(s: string): (r: string)
    ensures |r| <= |s|
    ensures r == [] || (!IsSpace(r[0]) && !IsSpace(r[|r| - 1]))
    ensures r == [] <==> AllSpace(s)
  {
    var l := LStrip(s);
    var r := RStrip(l);
    var d := |s| - |l|;
    assert r != [] ==> !AllSpace(s) by {
      if r != [] {
        assert r[0] == l[0] == s[d];
      }
    }
    assert r == [] ==> AllSpace(s) by {
      if r == [] {
        assert l == [];
        forall k | 0 <= k < |s| ensures IsSpace(s[k]) {
          assert s[..d][k] == s[k];
        }
      }
    }
    r
  }

  /** Stripping keeps a string whose ends are not whitespace unchanged. */
  lemma StripUnchanged(s: string)
    requires s != [] && !IsSpace(s[0]) && !IsSpace(s[|s| - 1])
    ensures Strip(s) == s
  {
  }

  // ---------------------------------------------------------------------------
  // str.split() with no argument: the whitespace-separated words
  // ---------------------------------------------------------------------------

  /** Length of the word at the front of `s`: up to the first whitespace or the end. */
  function TokenLength(s: string): (k: nat)
    requires s != [] && !IsSpace(s[0])
    ensures 0 < k <= |s| && NoSpace(s[..k]) && (k < |s| ==> IsSpace(s[k]))
  {
    if |s| == 1 || IsSpace(s[1]) then 1
    else
      var k := 1 + TokenLength(s[1..]);
      assert s[..k] == [s[0]] + s[1..][..k - 1];
      k
  }

  /** A word boundary is determined by the first whitespace. */
  lemma {:induction false} TokenLengthIs(s: string, k: nat)
    requires 0 < k <= |s| && NoSpace(s[..k]) && (k < |s| ==> IsSpace(s[k]))
    ensures TokenLength(s) == k
    decreases k
  {
    if k > 1 {
      assert s[1] == s[..k][1];
      assert s[1..][..k - 1] == s[1..k];
      TokenLengthIs(s[1..], k - 1);
    } else {
      assert s[0] == s[..k][0];
    }
  }

  /** `s.split()`: the maximal non-empty runs of non-whitespace characters, in order. */
  function Words(s: string): seq<string>
    decreases |s|
  {
    if s == [] then []
    else if IsSpace(s[0]) then Words(s[1..])
    else
      var k := TokenLength(s);
      [s[..k]] + Words(s[k..])
  }

  /** Every word is non-empty and free of whitespace, and there are none exactly when the
      text is all whitespace. */
  lemma {:induction false} WordsShape(s: string)
    ensures forall k :: 0 <= k < |Words(s)| ==> Words(s)[k] != [] && NoSpace(Words(s)[k])
    ensures Words(s) == [] <==> AllSpace(s)
    decreases |s|
  {
    if s != [] {
      if IsSpace(s[0]) {
        WordsShape(s[1..]);
        assert AllSpace(s[1..]) ==> AllSpace(s) by {
          if AllSpace(s[1..]) {
            forall k | 0 <= k < |s| ensures IsSpace(s[k]) { if k > 0 { assert s[k] == s[1..][k - 1]; } }
          }
        }
      } else {
        var k := TokenLength(s);
        WordsShape(s[k..]);
        var r := Words(s);
        assert r == [s[..k]] + Words(s[k..]);
        forall i | 0 <= i < |r| ensures r[i] != [] && NoSpace(r[i]) {
          if i > 0 {
            assert r[i] == Words(s[k..])[i - 1];
          }
        }
      }
    }
  }

  /** Two texts that meet at whitespace (or one of which is empty) split into the
      words of the first followed by the words of the second. */
  lemma {:induction false} WordsAppend(a: string, b: string)
    requires a == [] || b == [] || IsSpace(a[|a| - 1]) || IsSpace(b[0])
    ensures Words(a + b) == Words(a) + Words(b)
    decreases |a|, 1
  {
    if a == [] {
      assert a + b == b;
    } else if b == [] {
      assert a + b == a;
    } else if IsSpace(a[0]) {
      assert (a + b)[1..] == a[1..] + b;
      WordsAppend(a[1..], b);
    } else {
      WordsAppendToken(a, b);
    }
  }

  /** `WordsAppend` when `a` starts with a word: that word comes first in both. */
  lemma {:induction false} WordsAppendToken(a: string, b: string)
    requires a != [] && b != [] && !IsSpace(a[0])
    requires IsSpace(a[|a| - 1]) || IsSpace(b[0])
    ensures Words(a + b) == Words(a) + Words(b)
    decreases |a|, 0
  {
    var k := TokenLength(a);
    var w := a[..k];
    var rest := a[k..];
    WordsToken(a, k);
    assert (a + b)[..k] == w;
    assert (a + b)[k..] == rest + b;
    assert k < |a + b| ==> IsSpace((a + b)[k]) by {
      if k == |a| {
        assert a[k - 1] == w[k - 1];
      }
    }
    WordsToken(a + b, k);
    WordsAppend(rest, b);
    ConcatAssoc([w], Words(rest), Words(b));
  }

  /** The first word of a text that starts with a non-space character ends at the first
      whitespace, and the rest are the words of what follows it. */
  lemma WordsToken(s: string, k: nat)
    requires 0 < k <= |s| && NoSpace(s[..k]) && (k < |s| ==> IsSpace(s[k]))
    ensures Words(s) == [s[..k]] + Words(s[k..])
  {
    assert !IsSpace(s[0]) by { assert s[0] == s[..k][0]; }
    TokenLengthIs(s, k);
  }

  /** Leading whitespace does not change the words. */
  lemma {:induction false} WordsSkipSpace(ws: string, b: string)
    requires AllSpace(ws)
    ensures Words(ws + b) == Words(b)
    decreases |ws|
  {
    if ws != [] {
      assert (ws + b)[1..] == ws[1..] + b;
      WordsSkipSpace(ws[1..], b);
    } else {
      assert ws + b == b;
    }
  }

  /** Gluing two texts with a whitespace separator adds up their word counts. */
  lemma WordsAcrossSeparator(a: string, sep: string, b: string)
    requires sep != [] && AllSpace(sep)
    ensures Words(a + sep + b) == Words(a) + Words(b)
  {
    assert a + sep + b == a + (sep + b);
    WordsAppend(a, sep + b);
    WordsSkipSpace(sep, b);
  }

  // ---------------------------------------------------------------------------
  // str.isalpha() and str.lower()
  // ---------------------------------------------------------------------------

  /** `w.isalpha()`: non-empty and made of letters only. */
  predicate IsAlpha(w: string) {
    w != [] && forall k :: 0 <= k < |w| ==> IsLetter(w[k])
  }

  function LowerChar(c: char): (d: char)
    ensures IsUpper(c) ==> d != c && 'a' <= d <= 'z'
    ensures !IsUpper(c) ==> d == c
  {
    if IsUpper(c) then (c as int - 'A' as int + 'a' as int) as char else c
  }

  /** `w.lower()`: same length, every letter in lower case, other characters kept. */
  function Lower(w: string): (r: string)
    ensures |r| == |w|
    ensures forall k :: 0 <= k < |w| ==> r[k] == LowerChar(w[k]) && !IsUpper(r[k])
  {
    seq(|w|, k requires 0 <= k < |w| => LowerChar(w[k]))
  }

  // ---------------------------------------------------------------------------
  // Decimal numbers: int(digits) and str(n)
  // ---------------------------------------------------------------------------

  function DigitValue(c: char): nat
    requires IsDigit(c)
  {
    c as int - '0' as int
  }

  /** `int(ds)` for a string of decimal digits. */
  function DigitsValue(ds: string): nat
    requires AllDigits(ds)
  {
    if ds == [] then 0 else 10 * DigitsValue(ds[..|ds| - 1]) + DigitValue(ds[|ds| - 1])
  }

  function DigitChar(d: nat): (c: char)
    requires d < 10
    ensures IsDigit(c) && DigitValue(c) == d
  {
    ('0' as int + d) as char
  }

  /** `str(n)` for a non-negative `n`. */
  function NatToString(n: nat): (s: string)
    ensures s != []
  {
    if n < 10 then [DigitChar(n)] else NatToString(n / 10) + [DigitChar(n % 10)]
  }

  /** `str(n)` is a digit string without a leading zero (except "0" itself) whose value
      is `n`. */
  lemma {:induction false} NatToStringDigits(n: nat)
    ensures var s := NatToString(n);
      && AllDigits(s) && (|s| > 1 ==> s[0] != '0') && DigitsValue(s) == n
  {
    if n >= 10 {
      NatToStringDigits(n / 10);
      var s := NatToString(n);
      assert s[..|s| - 1] == NatToString(n / 10);
    }
  }

  /** `str(n)` for any integer: a minus sign before the digits of a negative number. */
  function IntToString(n: int): (s: string)
    ensures s != []
  {
    if n < 0 then "-" + NatToString(-n) else NatToString(n)
  }

  /** `str(n)` has no white space, so it is a single word of a message. */
  lemma IntToStringNoSpace(n: int)
    ensures NoSpace(IntToString(n)) && (n >= 0 <==> IntToString(n)[0] != '-')
  {
    var m: nat := if n < 0 then -n else n;
    NatToStringDigits(m);
    var s := IntToString(n);
    forall k | 0 <= k < |s|
      ensures !IsSpace(s[k])
    {
      if n < 0 && k == 0 {
        assert s[k] == '-';
      } else {
        var i := if n < 0 then k - 1 else k;
        assert s[k] == NatToString(m)[i];
        assert IsDigit(s[k]);
      }
    }
  }

  /** Decimal rendering is injective on non-negative numbers. */
  lemma NatToStringInjective(m: nat, n: nat)
    requires NatToString(m) == NatToString(n)
    ensures m == n
  {
    NatToStringDigits(m);
    NatToStringDigits(n);
  }
}
