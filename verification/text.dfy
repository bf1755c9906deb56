/** The .NET string operations the part module's configuration parsing relies on, with
    ordinal (char-by-char) comparison: `Contains`, `Replace(pattern, "")`, `Split(char)`,
    `Trim(char)` and `IsNullOrWhiteSpace`. */
module Text {

  /** `sub` occurs in `s` starting at index `i`. */
  predicate OccursAt(s: string, sub: string, i: int) {
    0 <= i && i + |sub| <= |s| && s[i..i + |sub|] == sub
  }

  lemma ShiftOccurrence(s: string, sub: string, i: int)
    requires |s| >= 1 && i >= 0
    ensures OccursAt(s, sub, i + 1) <==> OccursAt(s[1..], sub, i)
  {
    if 0 <= i && i + 1 + |sub| <= |s| {
      assert s[1..][i..i + |sub|] == s[i + 1..i + 1 + |sub|];
    }
  }

  /** `String.Contains`: the empty string occurs in every string. */
  function Contains(s: string, sub: string): (r: bool)
    ensures r <==> exists i :: OccursAt(s, sub, i)
    decreases |s|
  {
    if |sub| > |s| then false
    else if s[..|sub|] == sub then
      assert OccursAt(s, sub, 0);
      true
    else
      OccurrencesInTail(s, sub);
      Contains(s[1..], sub)
  }

  /** Without an occurrence at 0, the occurrences in `s` are those in its tail. */
  lemma OccurrencesInTail(s: string, sub: string)
    requires |sub| <= |s| && s[..|sub|] != sub
    ensures (exists i :: OccursAt(s, sub, i)) <==> (exists i :: OccursAt(s[1..], sub, i))
  {
    if i :| OccursAt(s[1..], sub, i) {
      ShiftOccurrence(s, sub, i);
    }
    if i :| OccursAt(s, sub, i) {
      ShiftOccurrence(s, sub, i - 1);
    }
  }

  /** `s.Replace(pattern, "")`: scans left to right and drops each occurrence it meets,
      resuming after it, so occurrences never overlap. */
  function RemoveAll(s: string, pattern: string): (r: string)
    requires |pattern| > 0
    ensures |r| <= |s|
    decreases |s|
  {
    if |s| < |pattern| then s
    else if s[..|pattern|] == pattern then RemoveAll(s[|pattern|..], pattern)
    else [s[0]] + RemoveAll(s[1..], pattern)
  }

  /** Replace leaves a string alone exactly when the pattern does not occur in it. */
  lemma {:induction false} RemoveAllUnchanged(s: string, pattern: string)
    requires |pattern| > 0
    ensures RemoveAll(s, pattern) == s <==> !Contains(s, pattern)
    decreases |s|
  {
    if Contains(s, pattern) {
      RemoveAllShrinks(s, pattern);
    } else if |s| >= |pattern| {
      assert !OccursAt(s, pattern, 0);
      forall i | OccursAt(s[1..], pattern, i)
        ensures false
      {
        ShiftOccurrence(s, pattern, i);
      }
      RemoveAllUnchanged(s[1..], pattern);
      assert [s[0]] + s[1..] == s;
    }
  }

  lemma {:induction false} RemoveAllShrinks(s: string, pattern: string)
    requires |pattern| > 0 && Contains(s, pattern)
    ensures |RemoveAll(s, pattern)| < |s|
    decreases |s|
  {
    if s[..|pattern|] != pattern {
      var i :| OccursAt(s, pattern, i);
      assert i != 0;
      ShiftOccurrence(s, pattern, i - 1);
      RemoveAllShrinks(s[1..], pattern);
    }
  }

  /** Every character of `s` but `c`, in order. */
  function Without(s: string, c: char): (r: string)
    ensures c !in r
    decreases |s|
  {
    if |s| == 0 then ""
    else (if s[0] == c then "" else [s[0]]) + Without(s[1..], c)
  }

  /** Removing a one-character pattern removes every copy of that character and keeps
      all others in order. */
  lemma {:induction false} RemoveCharIsWithout(s: string, c: char)
    ensures RemoveAll(s, [c]) == Without(s, c)
    decreases |s|
  {
    if |s| >= 1 {
      RemoveCharIsWithout(s[1..], c);
      if s[..1] == [c] {
        assert s[0] == c;
      } else {
        assert s[0] != c;
      }
    }
  }

  /** A pattern whose first character occurs nowhere else in it. */
  predicate HeadIsUnique(pattern: string) {
    |pattern| > 0 && forall j :: 0 < j < |pattern| ==> pattern[j] != pattern[0]
  }

  /** An occurrence of such a pattern appended to a string is removed without disturbing
      the rest: no occurrence can straddle the join. */
  lemma {:induction false} RemoveAllDropsSuffix(x: string, pattern: string)
    requires HeadIsUnique(pattern)
    ensures RemoveAll(x + pattern, pattern) == RemoveAll(x, pattern)
    decreases |x|
  {
    var s := x + pattern;
    var n := |pattern|;
    if |x| == 0 {
      assert s[..n] == pattern && s[n..] == [];
    } else if |x| < n {
      assert s[..n][|x|] == pattern[0];
      assert s[..n] != pattern;
      assert s[1..] == x[1..] + pattern;
      RemoveAllDropsSuffix(x[1..], pattern);
      assert [x[0]] + x[1..] == x;
    } else {
      assert s[..n] == x[..n];
      if x[..n] == pattern {
        assert s[n..] == x[n..] + pattern;
        RemoveAllDropsSuffix(x[n..], pattern);
      } else {
        assert s[1..] == x[1..] + pattern;
        RemoveAllDropsSuffix(x[1..], pattern);
      }
    }
  }

  /** The parts of a `Split` put back together with the separator. */
  function Join(parts: seq<string>, sep: char): string
    decreases |parts|
  {
    if |parts| == 0 then ""
    else if |parts| == 1 then parts[0]
    else parts[0] + [sep] + Join(parts[1..], sep)
  }

  /** A join contains no character that is neither in a part nor the separator. */
  lemma {:induction false} JoinAvoids(parts: seq<string>, sep: char, c: char)
    requires c != sep && forall i :: 0 <= i < |parts| ==> c !in parts[i]
    ensures c !in Join(parts, sep)
    decreases |parts|
  {
    if |parts| > 1 {
      JoinAvoids(parts[1..], sep, c);
    }
  }

  lemma {:induction false} WithoutAbsent(s: string, c: char)
    requires c !in s
    ensures Without(s, c) == s
    decreases |s|
  {
    if |s| > 0 {
      WithoutAbsent(s[1..], c);
      assert [s[0]] + s[1..] == s;
    }
  }

  /** `s.Split(sep)`: every separator ends a part, empty parts included, so there is always
      at least one part, none holds the separator, and joining them gives `s` back. */
  function Split(s: string, sep: char): (r: seq<string>)
    ensures |r| >= 1
    ensures forall i :: 0 <= i < |r| ==> sep !in r[i]
    ensures forall i, c :: 0 <= i < |r| && c in r[i] ==> c in s
    ensures Join(r, sep) == s
    decreases |s|
  {
    if |s| == 0 then [""]
    else
      var rest := Split(s[1..], sep);
      assert forall c :: c in s[1..] ==> c in s;
      if s[0] == sep then
        assert ([""] + rest)[1..] == rest;
        [""] + rest
      else
        var r := [[s[0]] + rest[0]] + rest[1..];
        assert r[1..] == rest[1..];
        assert [s[0]] + s[1..] == s;
        r
  }

  /** A string without the separator splits into itself. */
  lemma {:induction false} SplitWithoutSeparator(s: string, sep: char)
    requires sep !in s
    ensures Split(s, sep) == [s]
    decreases |s|
  {
    if |s| > 0 {
      assert sep !in s[1..];
      SplitWithoutSeparator(s[1..], sep);
      assert [s[0]] + s[1..] == s;
    }
  }

  lemma {:induction false} SplitAfterPart(p: string, t: string, sep: char)
    requires sep !in p
    ensures Split(p + [sep] + t, sep) == [p] + Split(t, sep)
    decreases |p|
  {
    var s := p + [sep] + t;
    if |p| == 0 {
      assert s == [sep] + t && s[1..] == t;
    } else {
      assert s[1..] == p[1..] + [sep] + t;
      assert sep !in p[1..];
      SplitAfterPart(p[1..], t, sep);
      assert [p[0]] + p[1..] == p;
    }
  }

  /** Two and three separator-free parts joined by the separator split back into them. */
  lemma SplitTwo(a: string, b: string, sep: char)
    requires sep !in a && sep !in b
    ensures Split(a + [sep] + b, sep) == [a, b]
  {
    SplitAfterPart(a, b, sep);
    SplitWithoutSeparator(b, sep);
  }

  lemma SplitThree(a: string, b: string, c: string, sep: char)
    requires sep !in a && sep !in b && sep !in c
    ensures Split(a + [sep] + b + [sep] + c, sep) == [a, b, c]
  {
    var t := b + [sep] + c;
    assert a + [sep] + b + [sep] + c == a + [sep] + t;
    SplitAfterPart(a, t, sep);
    SplitTwo(b, c, sep);
    assert [a] + [b, c] == [a, b, c];
  }

  /** Splitting a join gives the parts back, provided none holds the separator. */
  lemma {:induction false} SplitJoin(parts: seq<string>, sep: char)
    requires |parts| >= 1
    requires forall i :: 0 <= i < |parts| ==> sep !in parts[i]
    ensures Split(Join(parts, sep), sep) == parts
    decreases |parts|
  {
    if |parts| == 1 {
      SplitWithoutSeparator(parts[0], sep);
    } else {
      SplitJoin(parts[1..], sep);
      SplitAfterPart(parts[0], Join(parts[1..], sep), sep);
      assert [parts[0]] + parts[1..] == parts;
    }
  }

  /** `s.TrimStart(c)`. */
  function TrimStart(s: string, c: char): (r: string)
    ensures |r| <= |s| && r == s[|s| - |r|..]
    ensures |r| > 0 ==> r[0] != c
    ensures forall i :: 0 <= i < |s| - |r| ==> s[i] == c
    decreases |s|
  {
    if |s| > 0 && s[0] == c then TrimStart(s[1..], c) else s
  }

  /** `s.TrimEnd(c)`. */
  function TrimEnd(s: string, c: char): (r: string)
    ensures |r| <= |s| && r == s[..|r|]
    ensures |r| > 0 ==> r[|r| - 1] != c
    ensures forall i :: |r| <= i < |s| ==> s[i] == c
    decreases |s|
  {
    if |s| > 0 && s[|s| - 1] == c then TrimEnd(s[..|s| - 1], c) else s
  }

  /** `s.Trim(c)`: the middle of `s` left once every leading and trailing `c` is gone. */
  function Trim(s: string, c: char): (r: string)
    ensures |r| > 0 ==> r[0] != c && r[|r| - 1] != c
    ensures exists lo :: TrimmedAt(s, r, c, lo)
  {
    TrimWitness(s, c);
    TrimEnd(TrimStart(s, c), c)
  }

  lemma TrimWitness(s: string, c: char)
    ensures TrimmedAt(s, TrimEnd(TrimStart(s, c), c), c, |s| - |TrimStart(s, c)|)
  {
    var t := TrimStart(s, c);
    TrimmedFromEnds(s, t, TrimEnd(t, c), c);
  }

  /** Cutting copies of `c` off the front of `s` to get `t`, then off the back of `t` to
      get `r`, leaves `r` trimmed out of `s`. */
  lemma TrimmedFromEnds(s: string, t: string, r: string, c: char)
    requires |t| <= |s| && t == s[|s| - |t|..]
    requires forall i :: 0 <= i < |s| - |t| ==> s[i] == c
    requires |r| <= |t| && r == t[..|r|]
    requires forall i :: |r| <= i < |t| ==> t[i] == c
    ensures TrimmedAt(s, r, c, |s| - |t|)
  {
    var lo := |s| - |t|;
    assert r == s[lo..lo + |r|];
    forall i | lo + |r| <= i < |s|
      ensures s[i] == c
    {
      assert s[i] == t[i - lo];
    }
  }

  /** `r` is `s` from `lo` on, with only copies of `c` cut off at either end. */
  predicate TrimmedAt(s: string, r: string, c: char, lo: int) {
    0 <= lo && lo + |r| <= |s| && r == s[lo..lo + |r|]
    && (forall i :: 0 <= i < lo ==> s[i] == c)
    && (forall i :: lo + |r| <= i < |s| ==> s[i] == c)
  }

  /** `Char.IsWhiteSpace`: the space separators, the line and paragraph separators, and
      the control characters U+0009 to U+000D and U+0085. */
  predicate IsWhiteSpace(ch: char) {
    ch == ' ' || ('\t' <= ch <= '\r') || ch == '\U{85}' || ch == '\U{A0}' || ch == '\U{1680}'
    || ('\U{2000}' <= ch <= '\U{200A}') || ch == '\U{2028}' || ch == '\U{2029}'
    || ch == '\U{202F}' || ch == '\U{205F}' || ch == '\U{3000}'
  }

  /** `String.IsNullOrWhiteSpace` on a non-null string. */
  predicate IsBlank(s: string) {
    forall i :: 0 <= i < |s| ==> IsWhiteSpace(s[i])
  }
}
