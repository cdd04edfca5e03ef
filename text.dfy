/**
 * The JavaScript string operations the plugin relies on, over `seq<char>`:
 * trimming by the regular expressions `^\s*` and `\s*?$`, the blank test
 * `^\s*$`, `String.prototype.slice`, `replace` with a string pattern (first
 * occurrence only) and `Array.prototype.join`.
 */
module Text {
  import opened Wrappers

  /** The whitespace class `\s`, restricted to its ASCII members. */
  predicate IsSpace(c: char) {
    c == ' ' || c == '\t' || c == '\n' || c == '\r' || c == '\U{B}' || c == '\U{C}'
  }

  /** Start of the longest suffix of `s` whose characters all satisfy `p`. */
  function SuffixStart(s: string, p: char -> bool): (k: nat)
    ensures k <= |s|
    ensures forall i :: k <= i < |s| ==> p(s[i])
    ensures k == 0 || !p(s[k - 1])
  {
    if s == [] || !p(s[|s| - 1]) then |s| else SuffixStart(s[..|s| - 1], p)
  }

  /** End of the longest prefix of `s` whose characters all satisfy `p`. */
  function PrefixEnd(s: string, p: char -> bool): (k: nat)
    ensures k <= |s|
    ensures forall i :: 0 <= i < k ==> p(s[i])
    ensures k == |s| || !p(s[k])
  {
    if s == [] || !p(s[0]) then 0 else 1 + PrefixEnd(s[1..], p)
  }

  /** The three facts of SuffixStart's contract pin its value down. */
  lemma SuffixStartUnique(s: string, p: char -> bool, k: nat)
    requires k <= |s|
    requires forall i :: k <= i < |s| ==> p(s[i])
    requires k == 0 || !p(s[k - 1])
    ensures SuffixStart(s, p) == k
  {
  }

  /** `s.replace(/^\s*\/, "")`: leading whitespace removed. */
  function TrimStart(s: string): (r: string)
    ensures |r| <= |s| && r == s[|s| - |r|..]
    ensures r == [] || !IsSpace(r[0])
    ensures forall i :: 0 <= i < |s| - |r| ==> IsSpace(s[i])
  {
    s[PrefixEnd(s, IsSpace)..]
  }

  /** `s` without its trailing whitespace. */
  function TrimEnd(s: string): (r: string)
    ensures |r| <= |s| && r == s[..|r|]
    ensures r == [] || !IsSpace(r[|r| - 1])
    ensures forall i :: |r| <= i < |s| ==> IsSpace(s[i])
  {
    s[..SuffixStart(s, IsSpace)]
  }

  /** `/^\s*$/.test(s)`: every character is whitespace. */
  predicate IsBlank(s: string) {
    forall i | 0 <= i < |s| :: IsSpace(s[i])
  }

  /** An index argument of `slice`: negative counts from the end, then clamped to `[0, len]`. */
  function SliceIndex(i: int, len: nat): (r: nat)
    ensures r <= len
    ensures 0 <= i <= len ==> r == i
    ensures i < 0 && 0 <= len + i ==> r == len + i
    ensures len + i < 0 ==> r == 0
    ensures len < i ==> r == len
  {
    if i < 0 then (if len + i < 0 then 0 else len + i)
    else if i > len then len
    else i
  }

  /** `s.slice(start, end)` with JavaScript's semantics. */
  function Slice(s: string, start: int, end: int): (r: string)
    ensures |r| <= |s|
    ensures 0 <= start <= end <= |s| ==> r == s[start..end]
    ensures 0 <= end <= start ==> r == []
    ensures 0 <= start < |s| && end == -1 ==> r == s[start..|s| - 1]
    ensures start == 0 && end >= |s| ==> r == s
  {
    var b, e := SliceIndex(start, |s|), SliceIndex(end, |s|);
    if b < e then s[b..e] else []
  }

  /** `pat` occurs in `s` starting at index `k`. */
  predicate OccursAt(s: string, pat: string, k: nat) {
    k + |pat| <= |s| && s[k..k + |pat|] == pat
  }

  /** First index at or after `from` where `pat` occurs in `s`. */
  function FindFrom(s: string, pat: string, from: nat): (r: Option<nat>)
    decreases |s| - from
    ensures r.Some? ==> from <= r.value && OccursAt(s, pat, r.value)
    ensures r.Some? ==> forall k :: from <= k < r.value ==> !OccursAt(s, pat, k)
    ensures r.None? ==> forall k :: from <= k ==> !OccursAt(s, pat, k)
  {
    if from + |pat| > |s| then None
    else if s[from..from + |pat|] == pat then Some(from)
    else FindFrom(s, pat, from + 1)
  }

  /** `s.indexOf(pat)`, as an option. */
  function FindFirst(s: string, pat: string): (r: Option<nat>)
    ensures r.Some? ==> OccursAt(s, pat, r.value)
    ensures r.Some? ==> forall k :: 0 <= k < r.value ==> !OccursAt(s, pat, k)
    ensures r.None? ==> forall k :: !OccursAt(s, pat, k)
  {
    FindFrom(s, pat, 0)
  }

  /**
   * `s.replace(pat, rep)` with a string pattern: the first occurrence only,
   * `rep` taken literally.
   */
  function ReplaceFirst(s: string, pat: string, rep: string): (r: string)
    ensures FindFirst(s, pat).None? ==> r == s
    ensures FindFirst(s, pat).Some? ==>
      var i := FindFirst(s, pat).value;
      r == s[..i] + rep + s[i + |pat|..]
  {
    match FindFirst(s, pat)
    case None => s
    case Some(i) => s[..i] + rep + s[i + |pat|..]
  }

  /** The blank test agrees with both trims: a line is blank exactly when trimming leaves nothing. */
  lemma BlankTrims(s: string)
    ensures IsBlank(s) <==> TrimStart(s) == []
    ensures IsBlank(s) <==> TrimEnd(s) == []
  {
  }

  /** `xs.join(sep)`. */
  function Join(xs: seq<string>, sep: string): (r: string)
    ensures xs == [] ==> r == []
    ensures |xs| == 1 ==> r == xs[0]
  {
    if xs == [] then []
    else if |xs| == 1 then xs[0]
    else xs[0] + sep + Join(xs[1..], sep)
  }

  /** Splits `s` at every newline: the inverse of joining with a newline. */
  function SplitLines(s: string): (r: seq<string>)
    ensures |r| >= 1
  {
    if s == [] then [[]]
    else
      var rest := SplitLines(s[1..]);
      if s[0] == '\n' then [[]] + rest else [[s[0]] + rest[0]] + rest[1..]
  }

  /** SplitLines distributes over a newline that follows a newline-free text. */
  lemma {:induction false} SplitLinesAfter(a: string, b: string)
    requires forall i :: 0 <= i < |a| ==> a[i] != '\n'
    ensures SplitLines(a + "\n" + b) == [a] + SplitLines(b)
  {
    if a == [] {
      assert a + "\n" + b == "\n" + b;
      assert ("\n" + b)[1..] == b;
    } else {
      assert (a + "\n" + b)[1..] == a[1..] + "\n" + b;
      SplitLinesAfter(a[1..], b);
      assert [a[0]] + a[1..] == a;
    }
  }

  /** SplitLines of a newline-free text is that text alone. */
  lemma {:induction false} SplitLinesSingle(a: string)
    requires forall i :: 0 <= i < |a| ==> a[i] != '\n'
    ensures SplitLines(a) == [a]
  {
    if a != [] {
      SplitLinesSingle(a[1..]);
      assert [a[0]] + a[1..] == a;
    }
  }

  /** Joining with a newline and splitting again gives the lines back. */
  lemma {:induction false} SplitJoin(xs: seq<string>)
    requires |xs| >= 1
    requires forall k, i :: 0 <= k < |xs| && 0 <= i < |xs[k]| ==> xs[k][i] != '\n'
    ensures SplitLines(Join(xs, "\n")) == xs
  {
    if |xs| == 1 {
      SplitLinesSingle(xs[0]);
    } else {
      SplitJoin(xs[1..]);
      SplitLinesAfter(xs[0], Join(xs[1..], "\n"));
      assert [xs[0]] + xs[1..] == xs;
    }
  }
}
