/**
 * The Python `str` operations the license checker relies on, written out
 * on `seq<char>`: `isspace`, `strip`, `rstrip`, `startswith`,
 * `replace(old, "")` and `split(sep)`.
 */
module PyStr {

  /** The characters Python's `str.isspace` accepts: the ones `strip()` removes. */
  const SpaceChars: set<char> := {
    '\U{9}', '\U{A}', '\U{B}', '\U{C}', '\U{D}', '\U{1C}', '\U{1D}', '\U{1E}', '\U{1F}', '\U{20}',
    '\U{85}', '\U{A0}', '\U{1680}', '\U{2000}', '\U{2001}', '\U{2002}', '\U{2003}', '\U{2004}',
    '\U{2005}', '\U{2006}', '\U{2007}', '\U{2008}', '\U{2009}', '\U{200A}', '\U{2028}', '\U{2029}',
    '\U{202F}', '\U{205F}', '\U{3000}'}

  /** Python's `str.isspace` for one character. */
  predicate IsSpace(c: char) {
    c in SpaceChars
  }

  /** `s.lstrip()`. */
  function TrimStart(s: string): string
    decreases |s|
  {
    if s != [] && IsSpace(s[0]) then TrimStart(s[1..]) else s
  }

  /** `s.rstrip()`. */
  function RStrip(s: string): string
    decreases |s|
  {
    if s != [] && IsSpace(s[|s| - 1]) then RStrip(s[..|s| - 1]) else s
  }

  /** `s.strip()`. */
  function Strip(s: string): string {
    RStrip(TrimStart(s))
  }

  /** `lstrip` leaves the suffix that starts at the first non-whitespace character. */
  lemma {:induction false} TrimStartDropsLeadingSpace(s: string)
    ensures |TrimStart(s)| <= |s| && TrimStart(s) == s[|s| - |TrimStart(s)|..]
    ensures TrimStart(s) == [] || !IsSpace(TrimStart(s)[0])
    ensures forall i :: 0 <= i < |s| - |TrimStart(s)| ==> IsSpace(s[i])
    decreases |s|
  {
    if s != [] && IsSpace(s[0]) {
      TrimStartDropsLeadingSpace(s[1..]);
    }
  }

  /** `rstrip` leaves the prefix that ends at the last non-whitespace character. */
  lemma {:induction false} RStripDropsTrailingSpace(s: string)
    ensures |RStrip(s)| <= |s| && RStrip(s) == s[..|RStrip(s)|]
    ensures RStrip(s) == [] || !IsSpace(RStrip(s)[|RStrip(s)| - 1])
    ensures forall i :: |RStrip(s)| <= i < |s| ==> IsSpace(s[i])
    decreases |s|
  {
    if s != [] && IsSpace(s[|s| - 1]) {
      RStripDropsTrailingSpace(s[..|s| - 1]);
    }
  }

  /**
   * `strip` gives a slice of `s` that neither starts nor ends with
   * whitespace, and everything cut off on either side is whitespace.
   */
  lemma StripIsSlice(s: string)
    ensures Strip(s) == [] || (!IsSpace(Strip(s)[0]) && !IsSpace(Strip(s)[|Strip(s)| - 1]))
    ensures exists i, j :: 0 <= i <= j <= |s| && Strip(s) == s[i..j] &&
              (forall k :: 0 <= k < i ==> IsSpace(s[k])) &&
              (forall k :: j <= k < |s| ==> IsSpace(s[k]))
  {
    var t := TrimStart(s);
    TrimStartDropsLeadingSpace(s);
    RStripDropsTrailingSpace(t);
    var r := RStrip(t);
    var i := |s| - |t|;
    assert r == s[i..i + |r|];
    forall k | i + |r| <= k < |s|
      ensures IsSpace(s[k])
    {
      assert s[k] == t[k - i];
    }
  }

  /** Stripping twice is stripping once. */
  lemma StripIdempotent(s: string)
    ensures Strip(Strip(s)) == Strip(s)
  {
    StripIsSlice(s);
    var r := Strip(s);
    assert TrimStart(r) == r;
    assert RStrip(r) == r;
  }

  /** `s.startswith(p)`. */
  predicate StartsWith(s: string, p: string) {
    |p| <= |s| && s[..|p|] == p
  }

  /** `pat` occurs in `s` at position `i`. */
  predicate OccursAt(s: string, pat: string, i: int) {
    0 <= i && i + |pat| <= |s| && s[i..i + |pat|] == pat
  }

  /**
   * `s.replace(pat, "")` for a non-empty `pat`: scanning from the left,
   * every occurrence found is cut out and the scan resumes after it.
   */
  function RemoveAll(s: string, pat: string): (r: string)
    requires pat != []
    ensures |r| <= |s|
    decreases |s|
  {
    if |s| < |pat| then s
    else if s[..|pat|] == pat then RemoveAll(s[|pat|..], pat)
    else [s[0]] + RemoveAll(s[1..], pat)
  }

  /** With no occurrence of `pat`, nothing is removed. */
  lemma {:induction false} RemoveAllWithoutOccurrence(s: string, pat: string)
    requires pat != []
    requires forall i :: 0 <= i < |s| ==> !OccursAt(s, pat, i)
    ensures RemoveAll(s, pat) == s
    decreases |s|
  {
    if |s| >= |pat| {
      assert !OccursAt(s, pat, 0);
      forall i | 0 <= i < |s[1..]|
        ensures !OccursAt(s[1..], pat, i)
      {
        assert !OccursAt(s, pat, i + 1);
        assert i + 1 + |pat| <= |s| ==> s[1..][i..i + |pat|] == s[i + 1..i + 1 + |pat|];
      }
      RemoveAllWithoutOccurrence(s[1..], pat);
    }
  }

  /**
   * The first occurrence of `pat` is removed wherever it stands, not only
   * at the start: the text before it is kept and the scan goes on after it.
   */
  lemma {:induction false} RemoveAllAtFirstOccurrence(a: string, pat: string, b: string)
    requires pat != []
    requires forall i :: 0 <= i < |a| ==> !OccursAt(a + pat + b, pat, i)
    ensures RemoveAll(a + pat + b, pat) == a + RemoveAll(b, pat)
    decreases |a|
  {
    var s := a + pat + b;
    if a == [] {
      assert s[..|pat|] == pat;
      assert s[|pat|..] == b;
    } else {
      assert !OccursAt(s, pat, 0);
      assert s[1..] == a[1..] + pat + b;
      forall i | 0 <= i < |a[1..]|
        ensures !OccursAt(a[1..] + pat + b, pat, i)
      {
        assert !OccursAt(s, pat, i + 1);
        assert i + 1 + |pat| <= |s| ==> s[1..][i..i + |pat|] == s[i + 1..i + 1 + |pat|];
      }
      RemoveAllAtFirstOccurrence(a[1..], pat, b);
      assert [s[0]] + (a[1..] + RemoveAll(b, pat)) == a + RemoveAll(b, pat);
    }
  }

  /** `s.split(sep)`: always at least one piece. */
  function Split(s: string, sep: char): (parts: seq<string>)
    ensures |parts| >= 1
    decreases |s|
  {
    if s == [] then [[]]
    else
      var rest := Split(s[1..], sep);
      if s[0] == sep then [[]] + rest
      else [[s[0]] + rest[0]] + rest[1..]
  }

  /** No piece of a split holds the separator. */
  lemma {:induction false} SplitPiecesWithoutSep(s: string, sep: char)
    ensures forall i :: 0 <= i < |Split(s, sep)| ==> sep !in Split(s, sep)[i]
    decreases |s|
  {
    if s != [] {
      SplitPiecesWithoutSep(s[1..], sep);
    }
  }

  /** `sep.join(parts)`, the inverse of `Split`. */
  function Join(parts: seq<string>, sep: char): string
    requires |parts| >= 1
  {
    if |parts| == 1 then parts[0] else parts[0] + [sep] + Join(parts[1..], sep)
  }

  /** Joining the pieces of a split gives back the text. */
  lemma {:induction false} JoinSplit(s: string, sep: char)
    ensures Join(Split(s, sep), sep) == s
    decreases |s|
  {
    if s != [] {
      JoinSplit(s[1..], sep);
      var rest := Split(s[1..], sep);
      if s[0] == sep {
        assert ([[]] + rest)[1..] == rest;
      } else if |rest| > 1 {
        assert ([[s[0]] + rest[0]] + rest[1..])[1..] == rest[1..];
      }
    }
  }

  /** `s.split(sep)[-1]`. */
  function LastPart(s: string, sep: char): string {
    var parts := Split(s, sep);
    parts[|parts| - 1]
  }

  /** Text without `sep` splits into one piece, itself. */
  lemma {:induction false} SplitWithoutSep(s: string, sep: char)
    requires sep !in s
    ensures Split(s, sep) == [s]
    decreases |s|
  {
    if s != [] {
      assert s[0] != sep && sep !in s[1..];
      SplitWithoutSep(s[1..], sep);
      assert [s[0]] + s[1..] == s;
    }
  }

  /** Text up to the first `sep` is the first piece; the rest is split on. */
  lemma {:induction false} SplitAtSep(a: string, sep: char, b: string)
    requires sep !in a
    ensures Split(a + [sep] + b, sep) == [a] + Split(b, sep)
    decreases |a|
  {
    if a == [] {
      assert ([sep] + b)[1..] == b;
    } else {
      assert (a + [sep] + b)[1..] == a[1..] + [sep] + b;
      SplitAtSep(a[1..], sep, b);
      assert [a[0]] + a[1..] == a;
    }
  }

  /** The last piece is the suffix after the last `sep`, or all of `s` when it has none. */
  lemma {:induction false} LastPartIsSuffix(s: string, sep: char)
    ensures |LastPart(s, sep)| <= |s|
    ensures LastPart(s, sep) == s[|s| - |LastPart(s, sep)|..]
    ensures sep !in LastPart(s, sep)
    ensures |LastPart(s, sep)| == |s| || s[|s| - |LastPart(s, sep)| - 1] == sep
    decreases |s|
  {
    if s != [] {
      LastPartIsSuffix(s[1..], sep);
      var rest := Split(s[1..], sep);
      var r := LastPart(s[1..], sep);
      if s[0] != sep {
        if |r| == |s| - 1 {
          assert r == s[1..];
          SplitWithoutSep(s[1..], sep);
          JoinSplit(s[1..], sep);
          assert LastPart(s, sep) == [s[0]] + s[1..];
          assert [s[0]] + s[1..] == s;
        } else {
          assert |rest| > 1 by {
            if |rest| == 1 {
              JoinSplit(s[1..], sep);
            }
          }
          assert LastPart(s, sep) == r;
        }
      } else {
        assert LastPart(s, sep) == r;
      }
    }
  }

  /** When there is a separator, the last piece is shorter than the text. */
  lemma LastPartShorter(s: string, sep: char)
    requires |Split(s, sep)| >= 2
    ensures |LastPart(s, sep)| < |s|
  {
    LastPartIsSuffix(s, sep);
    if |LastPart(s, sep)| == |s| {
      assert LastPart(s, sep) == s;
      SplitWithoutSep(s, sep);
    }
  }

  /** The last piece is the text after the last `sep`. */
  lemma LastPartAfterSep(a: string, sep: char, b: string)
    requires sep !in b
    ensures LastPart(a + [sep] + b, sep) == b
  {
    var s := a + [sep] + b;
    var r := LastPart(s, sep);
    LastPartIsSuffix(s, sep);
    assert s[|a|] == sep;
    assert s[|a| + 1..] == b;
  }
}
