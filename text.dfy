/** String operations the adapter borrows from Python: `str.upper`, `str(int)`,
    `str.replace`, and the code-point ordering that `sorted` uses on keys. */
module Text {

  predicate IsLowerAscii(c: char)
  {
    'a' <= c <= 'z'
  }

  /** ASCII upper-casing of one character. */
  function UpperChar(c: char): char
  {
    if IsLowerAscii(c) then (c as int - 32) as char else c
  }

  /** `s.upper()`, restricted to the ASCII letters that exchange unit codes use: the length
      is kept, no lower-case letter is left and nothing else changes. */
  function Upper(s: string): (r: string)
    ensures |r| == |s|
    ensures forall i :: 0 <= i < |s| ==> !IsLowerAscii(r[i])
    ensures forall i :: 0 <= i < |s| && !IsLowerAscii(s[i]) ==> r[i] == s[i]
    ensures forall i :: 0 <= i < |s| && IsLowerAscii(s[i]) ==> r[i] == (s[i] as int - 32) as char
  {
    seq(|s|, i requires 0 <= i < |s| => UpperChar(s[i]))
  }

  // ---------------------------------------------------------------- decimal numerals

  predicate IsDigit(c: char)
  {
    '0' <= c <= '9'
  }

  predicate AllDigits(s: string)
  {
    forall i :: 0 <= i < |s| ==> IsDigit(s[i])
  }

  function DigitChar(d: nat): (c: char)
    requires d < 10
  {
    ('0' as int + d) as char
  }

  function DigitValue(c: char): nat
    requires IsDigit(c)
  {
    c as int - '0' as int
  }

  /** `str(n)` for a non-negative integer: its decimal numeral without leading zeros. */
  function NatToDecimal(n: nat): string
    decreases n
  {
    if n < 10 then [DigitChar(n)] else NatToDecimal(n / 10) + [DigitChar(n % 10)]
  }

  /** The number a string of decimal digits denotes (an independent reading of a numeral). */
  function DecimalValue(s: string): nat
    requires AllDigits(s)
    decreases |s|
  {
    if s == [] then 0 else DecimalValue(s[..|s| - 1]) * 10 + DigitValue(s[|s| - 1])
  }

  /** `str(n)` is a non-empty digit string with no leading zero that reads back as `n`. */
  lemma {:induction false} DecimalRoundTrip(n: nat)
    ensures AllDigits(NatToDecimal(n))
    ensures |NatToDecimal(n)| >= 1
    ensures NatToDecimal(n)[0] == '0' ==> n == 0
    ensures DecimalValue(NatToDecimal(n)) == n
    decreases n
  {
    if n >= 10 {
      DecimalRoundTrip(n / 10);
      var s := NatToDecimal(n);
      assert s[..|s| - 1] == NatToDecimal(n / 10);
    }
  }

  /** Appending the digits "000" multiplies the value read by a thousand. */
  lemma AppendThousand(s: string)
    requires AllDigits(s)
    ensures AllDigits(s + "000")
    ensures DecimalValue(s + "000") == DecimalValue(s) * 1000
  {
    var s1, s2, s3 := s + "0", s + "00", s + "000";
    assert s3[..|s3| - 1] == s2 && s3[|s3| - 1] == '0';
    assert s2[..|s2| - 1] == s1 && s2[|s2| - 1] == '0';
    assert s1[..|s1| - 1] == s && s1[|s1| - 1] == '0';
    assert DecimalValue(s1) == DecimalValue(s) * 10;
    assert DecimalValue(s2) == DecimalValue(s1) * 10;
    assert DecimalValue(s3) == DecimalValue(s2) * 10;
  }

  // ---------------------------------------------------------------- ordering

  /** `a < b` on Python strings: lexicographic by code point, a proper prefix first. */
  predicate Before(a: string, b: string)
    decreases |a|
  {
    if a == [] then b != []
    else if b == [] then false
    else if a[0] != b[0] then a[0] < b[0]
    else Before(a[1..], b[1..])
  }

  lemma {:induction false} BeforeIrreflexive(a: string)
    ensures !Before(a, a)
    decreases |a|
  {
    if a != [] {
      BeforeIrreflexive(a[1..]);
    }
  }

  lemma {:induction false} BeforeTransitive(a: string, b: string, c: string)
    requires Before(a, b) && Before(b, c)
    ensures Before(a, c)
    decreases |a|
  {
    if a != [] && b != [] && c != [] && a[0] == b[0] == c[0] {
      BeforeTransitive(a[1..], b[1..], c[1..]);
    }
  }

  /** Two different strings are always ordered one way. */
  lemma {:induction false} BeforeTotal(a: string, b: string)
    requires a != b
    ensures Before(a, b) || Before(b, a)
    decreases |a|
  {
    if a != [] && b != [] && a[0] == b[0] {
      assert a == [a[0]] + a[1..] && b == [b[0]] + b[1..];
      BeforeTotal(a[1..], b[1..]);
    }
  }

  lemma BeforeAsymmetric(a: string, b: string)
    ensures !(Before(a, b) && Before(b, a))
  {
    if Before(a, b) && Before(b, a) {
      BeforeTransitive(a, b, a);
      BeforeIrreflexive(a);
    }
  }

  // ---------------------------------------------------------------- replace

  /** No position of `s` starts a copy of `pat`. */
  predicate Absent(s: string, pat: string)
    decreases |s|
  {
    |s| < |pat| || (s[..|pat|] != pat && Absent(s[1..], pat))
  }

  /** `Absent` holds exactly when no window of `s` equals `pat`. */
  lemma {:induction false} AbsentMeansNoWindow(s: string, pat: string)
    ensures Absent(s, pat) <==> !exists i :: 0 <= i <= |s| - |pat| && s[i..][..|pat|] == pat
    decreases |s|
  {
    if pat == [] {
      assert s[0..][..0] == pat;
    } else if |s| >= |pat| {
      AbsentMeansNoWindow(s[1..], pat);
      assert s[0..][..|pat|] == s[..|pat|];
      forall i | 1 <= i <= |s| - |pat| ensures s[i..] == s[1..][i - 1..] {
      }
      if exists i :: 0 <= i <= |s[1..]| - |pat| && s[1..][i..][..|pat|] == pat {
        var i :| 0 <= i <= |s[1..]| - |pat| && s[1..][i..][..|pat|] == pat;
        assert s[i + 1..] == s[1..][i..];
      }
    }
  }

  /** `s.replace(pat, rep)`: every leftmost, non-overlapping occurrence of `pat`. A string
      without the pattern is returned as it is; a replacement no longer than the pattern
      (the deletion `rep == ""` included) never lengthens the string, one of the same length
      keeps its length, and replacing a pattern by itself changes nothing. */
  function ReplaceAll(s: string, pat: string, rep: string): (r: string)
    requires pat != []
    ensures Absent(s, pat) ==> r == s
    ensures |rep| <= |pat| ==> |r| <= |s|
    ensures |rep| == |pat| ==> |r| == |s|
    ensures rep == pat ==> r == s
    decreases |s|
  {
    if |s| < |pat| then s
    else if s[..|pat|] == pat then rep + ReplaceAll(s[|pat|..], pat, rep)
    else [s[0]] + ReplaceAll(s[1..], pat, rep)
  }

  /** A leading occurrence of the pattern is replaced and the scan goes on after it. */
  lemma ReplaceLeading(pat: string, t: string, rep: string)
    requires pat != []
    ensures ReplaceAll(pat + t, pat, rep) == rep + ReplaceAll(t, pat, rep)
  {
    assert (pat + t)[..|pat|] == pat;
    assert (pat + t)[|pat|..] == t;
  }

  /** A character that cannot start the pattern is copied and the scan moves on. */
  lemma ReplaceSkipsChar(c: char, t: string, pat: string, rep: string)
    requires pat != [] && c != pat[0]
    ensures ReplaceAll([c] + t, pat, rep) == [c] + ReplaceAll(t, pat, rep)
  {
    var s := [c] + t;
    if |s| >= |pat| {
      assert s[..|pat|][0] == c;
    }
    assert s[1..] == t;
  }

  /** A prefix none of whose characters can start the pattern is copied unchanged. */
  lemma {:induction false} ReplaceSkipsPrefix(u: string, t: string, pat: string, rep: string)
    requires pat != []
    requires forall i :: 0 <= i < |u| ==> u[i] != pat[0]
    ensures ReplaceAll(u + t, pat, rep) == u + ReplaceAll(t, pat, rep)
    decreases |u|
  {
    if u != [] {
      var rest, tail := u[1..], ReplaceAll(t, pat, rep);
      assert u + t == [u[0]] + (rest + t);
      ReplaceSkipsChar(u[0], rest + t, pat, rep);
      ReplaceSkipsPrefix(rest, t, pat, rep);
      assert [u[0]] + (rest + tail) == u + tail;
    } else {
      assert u + t == t;
    }
  }
}
