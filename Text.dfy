/** The JavaScript string operations the logger is built from: `split` and
    `join` with a string separator, `trim`, and `replace` with a string
    pattern and an empty replacement. Strings are sequences of characters. */
module Text {
  import opened Wrappers

  /** `s.split(sep)` for a one-character separator: the pieces between the
      separators, in order. There is always at least one piece, and no piece
      contains the separator. */
  function Split(s: string, sep: char): (parts: seq<string>)
    ensures |parts| >= 1
    ensures forall i :: 0 <= i < |parts| ==> sep !in parts[i]
    decreases |s|
  {
    if s == [] then [[]]
    else
      var rest := Split(s[1..], sep);
      if s[0] == sep then [[]] + rest
      else [[s[0]] + rest[0]] + rest[1..]
  }

  /** `parts.join(sep)`: empty for no parts, and otherwise it begins with
      the first part. */
  function Join(parts: seq<string>, sep: string): (r: string)
    ensures |parts| == 0 ==> r == []
    ensures |parts| > 0 ==> StartsWith(r, parts[0])
    decreases |parts|
  {
    if |parts| == 0 then []
    else if |parts| == 1 then parts[0]
    else parts[0] + sep + Join(parts[1..], sep)
  }

  /** A string without the separator is a single piece. */
  lemma {:induction false} SplitWithoutSeparator(s: string, sep: char)
    requires sep !in s
    ensures Split(s, sep) == [s]
    decreases |s|
  {
    if s != [] {
      SplitWithoutSeparator(s[1..], sep);
      assert [s[0]] + s[1..] == s;
    }
  }

  /** Splitting at the first separator. */
  lemma {:induction false} SplitAtFirstSeparator(a: string, sep: char, b: string)
    requires sep !in a
    ensures Split(a + [sep] + b, sep) == [a] + Split(b, sep)
    decreases |a|
  {
    var s := a + [sep] + b;
    if a == [] {
      assert s[0] == sep && s[1..] == b;
    } else {
      assert s[0] == a[0] && s[1..] == a[1..] + [sep] + b;
      SplitAtFirstSeparator(a[1..], sep, b);
      assert [a[0]] + a[1..] == a;
    }
  }

  /** Splitting undoes joining, for pieces free of the separator. */
  lemma {:induction false} SplitJoin(parts: seq<string>, sep: char)
    requires |parts| >= 1
    requires forall i :: 0 <= i < |parts| ==> sep !in parts[i]
    ensures Split(Join(parts, [sep]), sep) == parts
    decreases |parts|
  {
    if |parts| == 1 {
      SplitWithoutSeparator(parts[0], sep);
    } else {
      SplitJoin(parts[1..], sep);
      SplitAtFirstSeparator(parts[0], sep, Join(parts[1..], [sep]));
      assert [parts[0]] + parts[1..] == parts;
    }
  }

  /** Joining undoes splitting. */
  lemma {:induction false} JoinSplit(s: string, sep: char)
    ensures Join(Split(s, sep), [sep]) == s
    decreases |s|
  {
    if s != [] {
      var rest := Split(s[1..], sep);
      JoinSplit(s[1..], sep);
      if s[0] == sep {
        assert Join([[]] + rest, [sep]) == [] + [sep] + Join(rest, [sep]);
      } else if |rest| == 1 {
        assert Split(s, sep) == [[s[0]] + rest[0]];
      } else {
        var parts := Split(s, sep);
        assert parts[1..] == rest[1..];
        assert Join(rest, [sep]) == rest[0] + [sep] + Join(rest[1..], [sep]);
        assert Join(parts, [sep]) == ([s[0]] + rest[0]) + [sep] + Join(rest[1..], [sep]);
      }
    }
  }

  /** `s` begins with `p`. */
  predicate StartsWith(s: string, p: string) {
    |p| <= |s| && s[..|p|] == p
  }

  /** The characters `String.prototype.trim` removes: ECMAScript WhiteSpace
      and LineTerminator code points. */
  predicate IsWhitespace(c: char) {
    || c == '\t' || c == '\n' || c == '\U{B}' || c == '\U{C}' || c == '\r'
    || c == ' ' || c == '\U{A0}' || c == '\U{1680}'
    || ('\U{2000}' <= c <= '\U{200A}')
    || c == '\U{2028}' || c == '\U{2029}' || c == '\U{202F}'
    || c == '\U{205F}' || c == '\U{3000}' || c == '\U{FEFF}'
  }

  /** The end of the run of whitespace in `s` that starts at `from`. */
  function SkipWhitespace(s: string, from: nat): (r: nat)
    requires from <= |s|
    ensures from <= r <= |s|
    ensures forall k :: from <= k < r ==> IsWhitespace(s[k])
    ensures r < |s| ==> !IsWhitespace(s[r])
    decreases |s| - from
  {
    if from < |s| && IsWhitespace(s[from]) then SkipWhitespace(s, from + 1) else from
  }

  /** The start of the run of whitespace in `s` that ends at `hi`, not going
      below `lo`. */
  function BackOverWhitespace(s: string, lo: nat, hi: nat): (r: nat)
    requires lo <= hi <= |s|
    ensures lo <= r <= hi
    ensures forall k :: r <= k < hi ==> IsWhitespace(s[k])
    ensures r > lo ==> !IsWhitespace(s[r - 1])
    decreases hi
  {
    if hi > lo && IsWhitespace(s[hi - 1]) then BackOverWhitespace(s, lo, hi - 1) else hi
  }

  /** `r` is the slice of `s` starting at `i`, and everything of `s` outside
      that slice is whitespace. */
  predicate IsTrimmedSlice(s: string, r: string, i: nat) {
    && i + |r| <= |s| && r == s[i..i + |r|]
    && (forall k :: 0 <= k < i ==> IsWhitespace(s[k]))
    && (forall k :: i + |r| <= k < |s| ==> IsWhitespace(s[k]))
  }

  /** `s.trim()`: the slice of `s` left once the whitespace at both ends is
      dropped. */
  function Trim(s: string): (r: string)
    ensures exists i: nat :: IsTrimmedSlice(s, r, i)
    ensures r != [] ==> !IsWhitespace(r[0]) && !IsWhitespace(r[|r| - 1])
    ensures |r| <= |s| && forall c :: c in r ==> c in s
  {
    var i := SkipWhitespace(s, 0);
    var j := BackOverWhitespace(s, i, |s|);
    assert IsTrimmedSlice(s, s[i..j], i);
    s[i..j]
  }

  /** `pat` occurs in `s` at index `i`. */
  predicate OccursAt(s: string, pat: string, i: nat) {
    i + |pat| <= |s| && s[i..i + |pat|] == pat
  }

  /** The first index at or after `from` where `pat` occurs, if any: the
      search `s.indexOf(pat, from)` performs. It differs from JavaScript's
      only past the end of `s`, where JavaScript clamps `from` to `|s|` and
      so finds an empty pattern at `|s|`; the model only searches from 0,
      where the two agree. */
  function IndexOfFrom(s: string, pat: string, from: nat): (r: Option<nat>)
    ensures r.Some? ==> from <= r.value && OccursAt(s, pat, r.value)
    ensures r.Some? ==> forall j: nat :: from <= j < r.value ==> !OccursAt(s, pat, j)
    ensures r.None? ==> forall j: nat :: from <= j ==> !OccursAt(s, pat, j)
    decreases |s| - from
  {
    if from + |pat| > |s| then None
    else if s[from..from + |pat|] == pat then Some(from)
    else IndexOfFrom(s, pat, from + 1)
  }

  /** `s.replace(pat, "")` with a string pattern: only the FIRST occurrence
      of `pat` is removed; without one, `s` is returned as it is. */
  function RemoveFirst(s: string, pat: string): (r: string)
    ensures (forall j: nat :: !OccursAt(s, pat, j)) ==> r == s
    ensures |r| <= |s|
    ensures forall c :: c in r ==> c in s
  {
    match IndexOfFrom(s, pat, 0)
    case None => s
    case Some(i) => s[..i] + s[i + |pat|..]
  }

  /** Because only the first occurrence is removed, any occurrence that
      starts after it survives, shifted left by the pattern's length. */
  lemma RemoveFirstKeepsLaterOccurrences(s: string, pat: string, i: nat, j: nat)
    requires OccursAt(s, pat, i) && forall k: nat :: k < i ==> !OccursAt(s, pat, k)
    requires i + |pat| <= j && OccursAt(s, pat, j)
    ensures OccursAt(RemoveFirst(s, pat), pat, j - |pat|)
  {
    RemoveFirstAt(s, pat, i);
    var head, tail := s[..i], s[i + |pat|..];
    OccursInSuffix(s, pat, i + |pat|, j);
    OccursInRightPart(head, tail, pat, j - |pat|);
  }

  /** An occurrence at or after `from` is one in the suffix from `from`. */
  lemma OccursInSuffix(s: string, pat: string, from: nat, j: nat)
    requires from <= j && OccursAt(s, pat, j)
    ensures OccursAt(s[from..], pat, j - from)
  {
    assert s[from..][j - from..j - from + |pat|] == s[j..j + |pat|];
  }

  /** An occurrence in the right part of a concatenation. */
  lemma OccursInRightPart(x: string, y: string, pat: string, q: nat)
    requires |x| <= q && OccursAt(y, pat, q - |x|)
    ensures OccursAt(x + y, pat, q)
  {
    assert (x + y)[q..q + |pat|] == y[q - |x|..q - |x| + |pat|];
  }

  /** When the first occurrence of `pat` is at `i`, exactly that one is
      cut out. */
  lemma RemoveFirstAt(s: string, pat: string, i: nat)
    requires OccursAt(s, pat, i) && forall k: nat :: k < i ==> !OccursAt(s, pat, k)
    ensures RemoveFirst(s, pat) == s[..i] + s[i + |pat|..]
  {
    assert IndexOfFrom(s, pat, 0) == Some(i);
  }
}
