/** The Python string operations the optics pipeline relies on: `sep.join`,
    `str.split` on a one-character separator, `str.replace`, and `str(n)` for a
    non-negative integer. Strings are `seq<char>`. */
module Strings {

  predicate IsDigit(c: char) { '0' <= c <= '9' }

  /** A non-empty run of ASCII digits: the language of the regular expression `\d+`. */
  predicate IsDigits(s: string) {
    |s| > 0 && forall i :: 0 <= i < |s| ==> IsDigit(s[i])
  }

  /** `sep.join(parts)`: the parts with `sep` between neighbours, `""` for no parts. */
  function Join(parts: seq<string>, sep: string): string
  {
    if |parts| == 0 then ""
    else if |parts| == 1 then parts[0]
    else parts[0] + sep + Join(parts[1..], sep)
  }

  /** `"".join(parts)` */
  function Concat(parts: seq<string>): string
  {
    if |parts| == 0 then "" else parts[0] + Concat(parts[1..])
  }

  /** `s.split(c)` for a one-character separator: the maximal runs between
      separators, so that `k` separators give `k + 1` pieces. */
  function Split(s: string, c: char): (pieces: seq<string>)
    ensures |pieces| >= 1
  {
    if |s| == 0 then [""]
    else
      var rest := Split(s[1..], c);
      if s[0] == c then [""] + rest
      else [[s[0]] + rest[0]] + rest[1..]
  }

  /** `s` with every occurrence of `c` removed. */
  function RemoveAll(s: string, c: char): (r: string)
    ensures c !in r
    ensures |r| <= |s|
  {
    if |s| == 0 then ""
    else if s[0] == c then RemoveAll(s[1..], c)
    else [s[0]] + RemoveAll(s[1..], c)
  }

  /** `s.replace(pat, rep)`: non-overlapping occurrences of `pat`, found left to right. */
  function Replace(s: string, pat: string, rep: string): string
    requires |pat| > 0
    decreases |s|
  {
    if |s| < |pat| then s
    else if s[..|pat|] == pat then rep + Replace(s[|pat|..], pat, rep)
    else [s[0]] + Replace(s[1..], pat, rep)
  }

  /** `pat` occurs in `s` starting at index `p`. */
  predicate MatchAt(s: string, pat: string, p: int)
  {
    0 <= p && p + |pat| <= |s| && s[p..p + |pat|] == pat
  }

  /** A prefix in which no occurrence of `pat` starts passes through `replace` unchanged. */
  lemma {:induction false} ReplaceSkipsPrefix(x: string, y: string, pat: string, rep: string)
    requires |pat| > 0
    requires forall p :: 0 <= p < |x| ==> !MatchAt(x + y, pat, p)
    ensures Replace(x + y, pat, rep) == x + Replace(y, pat, rep)
    decreases |x|
  {
    var s := x + y;
    if |x| == 0 {
      assert s == y;
    } else if |s| < |pat| {
      assert Replace(y, pat, rep) == y;
    } else {
      assert !MatchAt(s, pat, 0);
      assert s[1..] == x[1..] + y;
      forall p | 0 <= p < |x| - 1 ensures !MatchAt(x[1..] + y, pat, p) {
        assert !MatchAt(s, pat, p + 1);
        if p + |pat| <= |s| - 1 {
          assert (x[1..] + y)[p..p + |pat|] == s[p + 1..p + 1 + |pat|];
        }
      }
      ReplaceSkipsPrefix(x[1..], y, pat, rep);
      assert [x[0]] + x[1..] == x;
    }
  }

  /** An occurrence of `pat` at the front is replaced, and the scan goes on after it. */
  lemma {:induction false} ReplaceAtMatch(y: string, pat: string, rep: string)
    requires |pat| > 0
    ensures Replace(pat + y, pat, rep) == rep + Replace(y, pat, rep)
  {
    assert (pat + y)[..|pat|] == pat;
    assert (pat + y)[|pat|..] == y;
  }

  function DigitChar(d: nat): (c: char)
    requires d < 10
    ensures IsDigit(c)
  {
    ('0' as int + d) as char
  }

  /** `str(n)` for `n >= 0`: decimal digits, most significant first, no leading zero. */
  function NatToString(n: nat): (s: string)
    ensures IsDigits(s)
    ensures |s| > 1 ==> s[0] != '0'
  {
    if n < 10 then [DigitChar(n)] else NatToString(n / 10) + [DigitChar(n % 10)]
  }

  /** The value of a run of decimal digits (`int(s)` on digits). */
  function ParseDigits(s: string): nat
    requires forall i :: 0 <= i < |s| ==> IsDigit(s[i])
  {
    if |s| == 0 then 0
    else
      assert IsDigit(s[|s| - 1]);
      10 * ParseDigits(s[..|s| - 1]) + (s[|s| - 1] as int - '0' as int)
  }

  /** `int(str(n)) == n`: the decimal rendering loses nothing. */
  lemma {:induction false} ParseNatToString(n: nat)
    ensures ParseDigits(NatToString(n)) == n
  {
    var s := NatToString(n);
    if n >= 10 {
      ParseNatToString(n / 10);
      assert s[..|s| - 1] == NatToString(n / 10);
    }
  }

  /** No piece of a split contains the separator. */
  lemma {:induction false} SplitPiecesFree(s: string, c: char)
    ensures forall i :: 0 <= i < |Split(s, c)| ==> c !in Split(s, c)[i]
  {
    if |s| > 0 {
      SplitPiecesFree(s[1..], c);
    }
  }

  /** `c.join(s.split(c)) == s`: splitting drops exactly the separators. */
  lemma {:induction false} JoinSplit(s: string, c: char)
    ensures Join(Split(s, c), [c]) == s
  {
    if |s| > 0 {
      JoinSplit(s[1..], c);
      var rest := Split(s[1..], c);
      if s[0] != c && |rest| > 1 {
        assert Join(rest, [c]) == rest[0] + [c] + Join(rest[1..], [c]);
      }
    }
  }

  /** A string without the separator splits into itself alone. */
  lemma {:induction false} SplitNoSeparator(s: string, c: char)
    requires c !in s
    ensures Split(s, c) == [s]
  {
    if |s| > 0 {
      assert c !in s[1..] by {
        forall i | 0 <= i < |s| - 1 ensures s[1..][i] != c { assert s[1..][i] == s[i + 1]; }
      }
      SplitNoSeparator(s[1..], c);
      assert [s[0]] + s[1..] == s;
    }
  }

  /** Splitting at the first separator. */
  lemma {:induction false} SplitAtFirst(a: string, c: char, b: string)
    requires c !in a
    ensures Split(a + [c] + b, c) == [a] + Split(b, c)
  {
    if |a| == 0 {
      assert (a + [c] + b)[1..] == b;
    } else {
      assert (a + [c] + b)[1..] == a[1..] + [c] + b;
      SplitAtFirst(a[1..], c, b);
      assert [a[0]] + a[1..] == a;
    }
  }

  /** `c.join(parts).split(c) == parts` when no part contains `c`. */
  lemma {:induction false} SplitJoin(parts: seq<string>, c: char)
    requires |parts| > 0
    requires forall i :: 0 <= i < |parts| ==> c !in parts[i]
    ensures Split(Join(parts, [c]), c) == parts
  {
    if |parts| == 1 {
      SplitNoSeparator(parts[0], c);
    } else {
      SplitJoin(parts[1..], c);
      SplitAtFirst(parts[0], c, Join(parts[1..], [c]));
    }
  }

  lemma {:induction false} RemoveAllAppend(a: string, b: string, c: char)
    ensures RemoveAll(a + b, c) == RemoveAll(a, c) + RemoveAll(b, c)
  {
    if |a| > 0 {
      assert (a + b)[1..] == a[1..] + b;
      RemoveAllAppend(a[1..], b, c);
    } else {
      assert a + b == b;
    }
  }

  /** Removing `c` from a `c`-joined list leaves the plain concatenation of the parts. */
  lemma {:induction false} RemoveAllJoin(parts: seq<string>, c: char)
    requires forall i :: 0 <= i < |parts| ==> c !in parts[i]
    ensures RemoveAll(Join(parts, [c]), c) == Concat(parts)
  {
    if |parts| == 1 {
      RemoveAllFree(parts[0], c);
    } else if |parts| > 1 {
      RemoveAllJoin(parts[1..], c);
      RemoveAllFree(parts[0], c);
      RemoveAllAppend(parts[0] + [c], Join(parts[1..], [c]), c);
      RemoveAllAppend(parts[0], [c], c);
    }
  }

  lemma {:induction false} RemoveAllFree(s: string, c: char)
    requires c !in s
    ensures RemoveAll(s, c) == s
  {
    if |s| > 0 {
      RemoveAllFree(s[1..], c);
    }
  }

  /** A replacement that differs from the pattern only by occurrences of `c`
      changes nothing once the `c`s are removed. */
  lemma {:induction false} ReplaceOnlyInserts(s: string, pat: string, rep: string, c: char)
    requires |pat| > 0
    requires RemoveAll(rep, c) == RemoveAll(pat, c)
    ensures RemoveAll(Replace(s, pat, rep), c) == RemoveAll(s, c)
    decreases |s|
  {
    if |s| >= |pat| {
      if s[..|pat|] == pat {
        ReplaceOnlyInserts(s[|pat|..], pat, rep, c);
        RemoveAllAppend(rep, Replace(s[|pat|..], pat, rep), c);
        RemoveAllAppend(pat, s[|pat|..], c);
        assert pat + s[|pat|..] == s;
      } else {
        ReplaceOnlyInserts(s[1..], pat, rep, c);
        RemoveAllAppend([s[0]], Replace(s[1..], pat, rep), c);
        RemoveAllAppend([s[0]], s[1..], c);
        assert [s[0]] + s[1..] == s;
      }
    }
  }

  /** No separator occurs in a join whose parts and separator are free of it. */
  lemma {:induction false} JoinFree(parts: seq<string>, sep: string, c: char)
    requires c !in sep
    requires forall i :: 0 <= i < |parts| ==> c !in parts[i]
    ensures c !in Join(parts, sep)
  {
    if |parts| > 1 {
      JoinFree(parts[1..], sep, c);
    }
  }
}
