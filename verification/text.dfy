/** Python string primitives the backend relies on: `str.strip()`, slicing,
    `sep.join(...)`, substring occurrence, `<` on strings and ASCII `lower()`. */
module Text {

  /** The code points for which Python's `str.isspace()` holds: the ASCII
      controls TAB..CR and FS..US, SPACE, NEL, NBSP and the Unicode space
      and line/paragraph separators. */
  const Whitespace: set<char> := {
    '\t', '\n', '\U{B}', '\U{C}', '\r',
    '\U{1C}', '\U{1D}', '\U{1E}', '\U{1F}', ' ',
    '\U{85}', '\U{A0}', '\U{1680}',
    '\U{2000}', '\U{2001}', '\U{2002}', '\U{2003}', '\U{2004}', '\U{2005}',
    '\U{2006}', '\U{2007}', '\U{2008}', '\U{2009}', '\U{200A}',
    '\U{2028}', '\U{2029}', '\U{202F}', '\U{205F}', '\U{3000}'
  }

  /** Python's `str.isspace()` for one character. */
  predicate IsSpace(c: char) {
    c in Whitespace
  }

  predicate AllSpace(s: string) {
    forall k :: 0 <= k < |s| ==> IsSpace(s[k])
  }

  /** The first index at or after `from` that is not whitespace (`|s|` if none). */
  function SkipSpace(s: string, from: nat): (n: nat)
    requires from <= |s|
    ensures from <= n <= |s|
    ensures forall k :: from <= k < n ==> IsSpace(s[k])
    ensures n < |s| ==> !IsSpace(s[n])
    decreases |s| - from
  {
    if from == |s| || !IsSpace(s[from]) then from else SkipSpace(s, from + 1)
  }

  /** The end of `s[..upto]` once its trailing whitespace is dropped. */
  function SkipSpaceBack(s: string, upto: nat): (n: nat)
    requires upto <= |s|
    ensures n <= upto
    ensures forall k :: n <= k < upto ==> IsSpace(s[k])
    ensures n > 0 ==> !IsSpace(s[n - 1])
  {
    if upto == 0 || !IsSpace(s[upto - 1]) then upto else SkipSpaceBack(s, upto - 1)
  }

  /** Where `s.strip()` starts inside `s`. */
  function StripStart(s: string): nat {
    SkipSpace(s, 0)
  }

  /** Where a slice of a string of length `n` with stop index `j` ends: a
      negative `j` counts from the end, and the result is clamped to `0..n`. */
  function SliceStop(n: nat, j: int): (e: nat)
    ensures e <= n
    ensures 0 <= j ==> e == if j <= n then j else n
    ensures j < 0 ==> e == if n + j <= 0 then 0 else n + j
  {
    if j < 0 then (if n + j <= 0 then 0 else n + j) else if j <= n then j else n
  }

  /** `s[i:j]` for `i >= 0`: from `i` up to the normalised stop, and empty
      when that stop is not past `i`. */
  function Slice(s: string, i: nat, j: int): (r: string)
    ensures |r| == (if SliceStop(|s|, j) <= i then 0 else SliceStop(|s|, j) - i)
    ensures forall k :: 0 <= k < |r| ==> r[k] == s[i + k]
  {
    var e := SliceStop(|s|, j);
    if e <= i then [] else s[i..e]
  }

  /** `t` occurs in `s` starting at index `k`. */
  predicate OccursAt(t: string, s: string, k: int) {
    0 <= k && k + |t| <= |s| && s[k..k + |t|] == t
  }

  /** Python's `t in s`. */
  predicate Contains(s: string, t: string) {
    exists k :: 0 <= k <= |s| && OccursAt(t, s, k)
  }

  predicate StartsWith(s: string, prefix: string) {
    |prefix| <= |s| && s[..|prefix|] == prefix
  }

  /** Python's `s.strip()`: `s` without leading and trailing whitespace.
      Only whitespace is removed, and every non-whitespace character is kept. */
  function Strip(s: string): (r: string)
    ensures |r| <= |s|
    ensures r == [] <==> AllSpace(s)
    ensures r != [] ==> !IsSpace(r[0]) && !IsSpace(r[|r| - 1])
    ensures OccursAt(r, s, StripStart(s))
    ensures forall k :: 0 <= k < |s| && !IsSpace(s[k]) ==> StripStart(s) <= k < StripStart(s) + |r|
  {
    var lo := StripStart(s);
    if lo == |s| then
      s[lo..]
    else
      var hi := SkipSpaceBack(s, |s|);
      assert lo < hi by { assert !IsSpace(s[lo]); }
      s[lo..hi]
  }

  /** The first and last characters kept by a non-empty strip are not whitespace. */
  lemma StripEnds(t: string)
    requires Strip(t) != []
    ensures StripStart(t) + |Strip(t)| <= |t|
    ensures !IsSpace(t[StripStart(t)]) && !IsSpace(t[StripStart(t) + |Strip(t)| - 1])
  {
    var r := Strip(t);
    var a := StripStart(t);
    assert t[a..a + |r|] == r;
    assert r[0] == t[a] && r[|r| - 1] == t[a + |r| - 1];
  }

  /** Stripping a piece of `s` never leaves more than stripping `s` itself. */
  lemma StripInfixShorter(s: string, i: nat, j: nat)
    requires i <= j <= |s|
    ensures |Strip(s[i..j])| <= |Strip(s)|
  {
    if Strip(s[i..j]) != [] {
      var p := PieceStripStart(s, i, j);
      NonSpaceSpan(s, p, p + |Strip(s[i..j])| - 1);
    }
  }

  /** Where the strip of `s[i..j]` starts, as an index into `s`; the first
      and last characters it keeps are not whitespace. */
  lemma PieceStripStart(s: string, i: nat, j: nat) returns (p: nat)
    requires i <= j <= |s| && Strip(s[i..j]) != []
    ensures p + |Strip(s[i..j])| <= j
    ensures !IsSpace(s[p]) && !IsSpace(s[p + |Strip(s[i..j])| - 1])
  {
    var t := s[i..j];
    StripEnds(t);
    var a, n := StripStart(t), |Strip(t)|;
    p := i + a;
    SliceAt(s, i, j, a);
    SliceAt(s, i, j, a + n - 1);
  }

  lemma SliceAt(s: string, i: nat, j: nat, k: nat)
    requires i <= j <= |s| && k < j - i
    ensures s[i + k] == s[i..j][k]
  {
  }

  /** Two non-whitespace characters bound the stripped length from below. */
  lemma NonSpaceSpan(s: string, p: nat, q: nat)
    requires p <= q < |s| && !IsSpace(s[p]) && !IsSpace(s[q])
    ensures q - p + 1 <= |Strip(s)|
  {
  }

  /** A string with no whitespace is its own strip. */
  lemma StripNoSpace(s: string)
    requires forall k :: 0 <= k < |s| ==> !IsSpace(s[k])
    ensures Strip(s) == s
  {
    if |s| > 0 {
      assert StripStart(s) == 0;
      assert SkipSpaceBack(s, |s|) == |s|;
    }
  }

  /** Python's `sep.join(parts)`. */
  function Join(parts: seq<string>, sep: string): (r: string)
    ensures |parts| == 0 ==> r == []
    ensures |parts| == 1 ==> r == parts[0]
  {
    if |parts| == 0 then []
    else if |parts| == 1 then parts[0]
    else parts[0] + sep + Join(parts[1..], sep)
  }

  /** Where `parts[i]` begins inside `Join(parts, sep)`. */
  function JoinOffset(parts: seq<string>, sep: string, i: nat): nat
    requires i < |parts|
  {
    if i == 0 then 0 else |parts[0]| + |sep| + JoinOffset(parts[1..], sep, i - 1)
  }

  /** An occurrence in `y` is an occurrence in `x + y`, shifted by `|x|`. */
  lemma OccursAfter(t: string, x: string, y: string, k: int)
    requires OccursAt(t, y, k)
    ensures OccursAt(t, x + y, |x| + k)
  {
    assert (x + y)[|x| + k..|x| + k + |t|] == y[k..k + |t|];
  }

  /** An occurrence in `x` is an occurrence in `x + y` at the same place. */
  lemma OccursBefore(t: string, x: string, y: string, k: int)
    requires OccursAt(t, x, k)
    ensures OccursAt(t, x + y, k)
  {
    assert (x + y)[k..k + |t|] == x[k..k + |t|];
  }

  /** Consecutive parts of a join start exactly one part and one separator apart. */
  lemma {:induction false} JoinOffsetStep(parts: seq<string>, sep: string, i: nat)
    requires i + 1 < |parts|
    ensures JoinOffset(parts, sep, i + 1) == JoinOffset(parts, sep, i) + |parts[i]| + |sep|
  {
    if i > 0 {
      JoinOffsetStep(parts[1..], sep, i - 1);
    }
  }

  /** The first part opens `a + sep + rest`, and the separator follows it. */
  lemma HeadLayout(a: string, sep: string, rest: string)
    ensures OccursAt(a, a + sep + rest, 0)
    ensures OccursAt(sep, a + sep + rest, |a|)
  {
    assert (a + sep + rest)[0..|a|] == a;
    assert (a + sep + rest)[|a|..|a| + |sep|] == sep;
  }

  /** Every part appears verbatim in the joined string at its offset, and the
      separator follows every part but the last. */
  lemma {:induction false} JoinLayout(parts: seq<string>, sep: string, i: nat)
    requires i < |parts|
    ensures OccursAt(parts[i], Join(parts, sep), JoinOffset(parts, sep, i))
    ensures i + 1 < |parts| ==> OccursAt(sep, Join(parts, sep), JoinOffset(parts, sep, i) + |parts[i]|)
    ensures i + 1 == |parts| ==> JoinOffset(parts, sep, i) + |parts[i]| == |Join(parts, sep)|
  {
    if |parts| > 1 {
      var rest := Join(parts[1..], sep);
      var head := parts[0] + sep;
      assert Join(parts, sep) == head + rest;
      if i == 0 {
        HeadLayout(parts[0], sep, rest);
      } else {
        JoinLayout(parts[1..], sep, i - 1);
        assert parts[1..][i - 1] == parts[i];
        var off := JoinOffset(parts[1..], sep, i - 1);
        OccursAfter(parts[i], head, rest, off);
        if i + 1 < |parts| {
          OccursAfter(sep, head, rest, off + |parts[i]|);
        }
      }
    }
  }

  /** Every part of a join is contained in the joined string. */
  lemma JoinContainsParts(parts: seq<string>, sep: string)
    ensures forall i :: 0 <= i < |parts| ==> Contains(Join(parts, sep), parts[i])
  {
    forall i | 0 <= i < |parts|
      ensures Contains(Join(parts, sep), parts[i])
    {
      JoinLayout(parts, sep, i);
    }
  }

  /** An occurrence inside the middle piece of `a + m + b` is an occurrence in the whole. */
  lemma OccursInMiddle(t: string, a: string, m: string, b: string, k: int)
    requires OccursAt(t, m, k)
    ensures OccursAt(t, a + m + b, |a| + k)
  {
    var s := a + m + b;
    assert s[|a| + k..|a| + k + |t|] == m[k..k + |t|];
  }

  /** A string occurs at its own place inside any concatenation around it. */
  lemma OccursInside(a: string, t: string, b: string)
    ensures OccursAt(t, a + t + b, |a|)
  {
    assert (a + t + b)[|a|..|a| + |t|] == t;
  }

  lemma OccursPrefix(a: string, b: string)
    ensures OccursAt(a, a + b, 0)
  {
    assert (a + b)[..|a|] == a;
  }

  lemma OccursSuffix(a: string, b: string)
    ensures OccursAt(b, a + b, |a|)
  {
    assert (a + b)[|a|..] == b;
  }

  /** An occurrence inside an occurrence is an occurrence, at the summed offset. */
  lemma OccursCompose(u: string, t: string, s: string, k: int, k2: int)
    requires OccursAt(t, s, k) && OccursAt(u, t, k2)
    ensures OccursAt(u, s, k + k2)
  {
    forall m | 0 <= m < |u|
      ensures s[k + k2 + m] == u[m]
    {
      assert u[m] == t[k2 + m];
    }
    assert s[k + k2..k + k2 + |u|] == u;
  }

  /** The parts of a join sit at their offsets inside any text `p` around the join. */
  lemma JoinPartsEmbedded(p: string, head: string, parts: seq<string>, sep: string, tail: string)
    requires p == head + Join(parts, sep) + tail
    ensures forall i :: 0 <= i < |parts| ==> OccursAt(parts[i], p, |head| + JoinOffset(parts, sep, i))
  {
    var j := Join(parts, sep);
    forall i | 0 <= i < |parts|
      ensures OccursAt(parts[i], p, |head| + JoinOffset(parts, sep, i))
    {
      JoinLayout(parts, sep, i);
      OccursInMiddle(parts[i], head, j, tail, JoinOffset(parts, sep, i));
    }
  }

  /** Inside any text `p` around a join, `sep` follows every part but the
      last, and the next part starts right after it. */
  lemma JoinSeparatorsEmbedded(p: string, head: string, parts: seq<string>, sep: string, tail: string)
    requires p == head + Join(parts, sep) + tail
    ensures forall i :: 0 <= i < |parts| - 1 ==>
      && OccursAt(sep, p, |head| + JoinOffset(parts, sep, i) + |parts[i]|)
      && JoinOffset(parts, sep, i + 1) == JoinOffset(parts, sep, i) + |parts[i]| + |sep|
  {
    var j := Join(parts, sep);
    forall i | 0 <= i < |parts| - 1
      ensures OccursAt(sep, p, |head| + JoinOffset(parts, sep, i) + |parts[i]|)
      ensures JoinOffset(parts, sep, i + 1) == JoinOffset(parts, sep, i) + |parts[i]| + |sep|
    {
      JoinLayout(parts, sep, i);
      JoinOffsetStep(parts, sep, i);
      OccursInMiddle(sep, head, j, tail, JoinOffset(parts, sep, i) + |parts[i]|);
    }
  }

  /** Python's `a < b` on strings: lexicographic by code point, a proper
      prefix being smaller. */
  predicate LexLess(a: string, b: string) {
    if |a| == 0 then |b| > 0
    else if |b| == 0 then false
    else if a[0] != b[0] then a[0] < b[0]
    else LexLess(a[1..], b[1..])
  }

  lemma {:induction false} LexLessIrreflexive(a: string)
    ensures !LexLess(a, a)
  {
    if |a| > 0 {
      LexLessIrreflexive(a[1..]);
    }
  }

  lemma {:induction false} LexLessTransitive(a: string, b: string, c: string)
    requires LexLess(a, b) && LexLess(b, c)
    ensures LexLess(a, c)
  {
    if |a| > 0 && |b| > 0 && |c| > 0 && a[0] == b[0] && b[0] == c[0] {
      LexLessTransitive(a[1..], b[1..], c[1..]);
    }
  }

  lemma {:induction false} LexLessAsymmetric(a: string, b: string)
    requires LexLess(a, b)
    ensures !LexLess(b, a)
  {
    if |a| > 0 && |b| > 0 && a[0] == b[0] {
      LexLessAsymmetric(a[1..], b[1..]);
    }
  }

  lemma {:induction false} LexLessTotal(a: string, b: string)
    requires a != b
    ensures LexLess(a, b) || LexLess(b, a)
  {
    if |a| > 0 && |b| > 0 && a[0] == b[0] {
      assert a == [a[0]] + a[1..] && b == [b[0]] + b[1..];
      LexLessTotal(a[1..], b[1..]);
    }
  }

  /** ASCII part of Python's `str.lower()`. */
  function AsciiLower(s: string): (r: string)
    ensures |r| == |s|
    ensures forall k :: 0 <= k < |s| ==>
      r[k] == (if 'A' <= s[k] <= 'Z' then (s[k] as int + 32) as char else s[k])
  {
    if |s| == 0 then []
    else [if 'A' <= s[0] <= 'Z' then (s[0] as int + 32) as char else s[0]] + AsciiLower(s[1..])
  }
}
