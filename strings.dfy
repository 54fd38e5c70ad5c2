/**
 * The parts of Python's `str` that the modelled code uses, on `seq<char>`.
 * Whitespace is the set of characters below U+0080 that Python treats as whitespace, and case mapping is ASCII only.
 */
module Strings {

  import opened Wrappers

  /**
   * The characters below U+0080 that `str.strip()` removes and the regex class `\s` matches:
   * space, tab to carriage return, and the separators U+001C to U+001F.
   */
  const Whitespace: set<char> := {' ', '\t', '\n', '\r', '\U{0B}', '\U{0C}', '\U{1C}', '\U{1D}', '\U{1E}', '\U{1F}'}

  /** The characters of `strip('"\'')`. */
  const Quotes: set<char> := {'"', '\''}

  predicate IsDigit(c: char) { '0' <= c <= '9' }

  /** The `YYYY-MM-DD-` prefix that `^\d{4}-\d{2}-\d{2}-` matches. */
  predicate DashedDatePrefix(s: string) {
    && |s| >= 11
    && (forall i :: 0 <= i < 4 ==> IsDigit(s[i])) && s[4] == '-'
    && IsDigit(s[5]) && IsDigit(s[6]) && s[7] == '-'
    && IsDigit(s[8]) && IsDigit(s[9]) && s[10] == '-'
  }

  function LowerChar(c: char): char {
    if 'A' <= c <= 'Z' then (c as int - 'A' as int + 'a' as int) as char else c
  }

  /** `s.lower()` */
  function Lower(s: string): (r: string)
    ensures |r| == |s|
    ensures forall i :: 0 <= i < |s| ==> r[i] == LowerChar(s[i])
  {
    seq(|s|, i requires 0 <= i < |s| => LowerChar(s[i]))
  }

  /** `s.replace(a, b)` for single characters `a` and `b`. */
  function ReplaceChar(s: string, a: char, b: char): (r: string)
    ensures |r| == |s|
    ensures forall i :: 0 <= i < |s| ==> r[i] == (if s[i] == a then b else s[i])
  {
    seq(|s|, i requires 0 <= i < |s| => if s[i] == a then b else s[i])
  }

  lemma ReplaceCharRemoves(s: string, a: char, b: char)
    requires a != b
    ensures a !in ReplaceChar(s, a, b)
  {
    var r := ReplaceChar(s, a, b);
    forall i | 0 <= i < |r| ensures r[i] != a {}
  }

  predicate StartsWith(s: string, prefix: string) {
    |prefix| <= |s| && s[..|prefix|] == prefix
  }

  predicate EndsWith(s: string, suffix: string) {
    |suffix| <= |s| && s[|s| - |suffix|..] == suffix
  }

  /** `sub` occurs in `s` starting at index `i`. */
  predicate OccursAt(s: string, sub: string, i: nat) {
    i + |sub| <= |s| && s[i..i + |sub|] == sub
  }

  /** `sub in s` */
  predicate Contains(s: string, sub: string) {
    exists i: nat :: i <= |s| && OccursAt(s, sub, i)
  }

  /** `s.find(sub, from)`, with `None` for -1. */
  function IndexOf(s: string, sub: string, from: nat): (r: Option<nat>)
    ensures r.Some? ==> from <= r.value && OccursAt(s, sub, r.value)
    ensures r.Some? ==> forall j: nat :: from <= j < r.value ==> !OccursAt(s, sub, j)
    ensures r.None? ==> forall j: nat :: from <= j ==> !OccursAt(s, sub, j)
    decreases |s| - from
  {
    if from + |sub| > |s| then None
    else if OccursAt(s, sub, from) then Some(from)
    else IndexOf(s, sub, from + 1)
  }

  /** The first occurrence at or after `from` is the one at j when there is none between. */
  lemma {:induction false} IndexOfFirst(s: string, sub: string, from: nat, j: nat)
    requires from <= j && OccursAt(s, sub, j)
    requires forall k: nat :: from <= k < j ==> !OccursAt(s, sub, k)
    ensures IndexOf(s, sub, from) == Some(j)
    decreases j - from
  {
    if from < j {
      IndexOfFirst(s, sub, from + 1, j);
    }
  }

  lemma IndexOfContains(s: string, sub: string)
    ensures IndexOf(s, sub, 0).Some? <==> Contains(s, sub)
  {
    if Contains(s, sub) {
      var i: nat :| i <= |s| && OccursAt(s, sub, i);
    }
  }

  /** Index of the first character at or after `from` that is not in `cs` (or `|s|`). */
  function SpanEnd(s: string, from: nat, cs: set<char>): (e: nat)
    requires from <= |s|
    ensures from <= e <= |s|
    ensures forall i :: from <= i < e ==> s[i] in cs
    ensures e < |s| ==> s[e] !in cs
    decreases |s| - from
  {
    if from == |s| || s[from] !in cs then from else SpanEnd(s, from + 1, cs)
  }

  /** Number of characters at the end of `s` that lie in `cs`. */
  function TrailingCount(s: string, cs: set<char>): (n: nat)
    ensures n <= |s|
    ensures forall i :: |s| - n <= i < |s| ==> s[i] in cs
    ensures n < |s| ==> s[|s| - n - 1] !in cs
  {
    if s == [] || s[|s| - 1] !in cs then 0 else TrailingCount(s[..|s| - 1], cs) + 1
  }

  /** `s.strip(cs)`: drop every leading and trailing character that lies in `cs`. */
  function StripChars(s: string, cs: set<char>): (r: string)
    ensures exists i, j ::
              && 0 <= i <= j <= |s| && r == s[i..j]
              && (forall k :: 0 <= k < i ==> s[k] in cs)
              && (forall k :: j <= k < |s| ==> s[k] in cs)
    ensures r != [] ==> r[0] !in cs && r[|r| - 1] !in cs
    ensures |r| <= |s|
  {
    var i := SpanEnd(s, 0, cs);
    var t := s[i..];
    var n := TrailingCount(t, cs);
    TrailingInSuffix(s, cs, i, n);
    var j := |s| - n;
    assert t[..|t| - n] == s[i..j];
    assert 0 <= i <= j <= |s| && (forall k :: 0 <= k < i ==> s[k] in cs) && (forall k :: j <= k < |s| ==> s[k] in cs);
    t[..|t| - n]
  }

  /** The trailing run of s[i..], with s[i] itself not in `cs`, seen as positions of s. */
  lemma TrailingInSuffix(s: string, cs: set<char>, i: nat, n: nat)
    requires i <= |s| && (i < |s| ==> s[i] !in cs) && n == TrailingCount(s[i..], cs)
    ensures i + n <= |s| && (i < |s| ==> i + n < |s|)
    ensures forall k :: |s| - n <= k < |s| ==> s[k] in cs
    ensures i + n < |s| ==> s[|s| - n - 1] !in cs
  {
    var t := s[i..];
    if i < |s| {
      assert t[0] == s[i];
    }
    forall k | |s| - n <= k < |s| ensures s[k] in cs {
      assert s[k] == t[k - i];
    }
    if i + n < |s| {
      assert s[|s| - n - 1] == t[|t| - n - 1];
    }
  }

  /** `s.strip()` */
  function Strip(s: string): (r: string)
    ensures r != [] ==> r[0] !in Whitespace && r[|r| - 1] !in Whitespace
    ensures |r| <= |s|
  {
    StripChars(s, Whitespace)
  }

  lemma StripCharsNoop(s: string, cs: set<char>)
    requires s == [] || (s[0] !in cs && s[|s| - 1] !in cs)
    ensures StripChars(s, cs) == s
  {
  }

  /** The prefix of at most `n` characters, `s[:n]`. */
  function Take(s: string, n: nat): (r: string)
    ensures |r| == if |s| < n then |s| else n
    ensures StartsWith(s, r)
  {
    if |s| <= n then s else s[..n]
  }

  /** Python's `s[a:b]` for non-negative bounds. */
  function Slice(s: string, a: nat, b: nat): (r: string)
    ensures a <= b <= |s| ==> r == s[a..b]
    ensures b <= a || |s| <= a ==> r == ""
  {
    if b <= a || |s| <= a then "" else s[a..if b < |s| then b else |s|]
  }

  /** `s.split(c)` for a one-character separator: never empty, one more piece than separators. */
  function Split(s: string, c: char): (r: seq<string>)
    ensures |r| >= 1
    ensures forall i :: 0 <= i < |r| ==> c !in r[i]
    decreases |s|
  {
    match IndexOf(s, [c], 0)
    case None =>
      assert forall k :: 0 <= k < |s| ==> s[k] != c by {
        forall k | 0 <= k < |s| ensures s[k] != c { assert !OccursAt(s, [c], k); }
      }
      [s]
    case Some(i) =>
      assert forall k :: 0 <= k < i ==> s[k] != c by {
        forall k | 0 <= k < i ensures s[k] != c { assert !OccursAt(s, [c], k); }
      }
      [s[..i]] + Split(s[i + 1..], c)
  }

  /** `sep.join(parts)` */
  function Join(sep: string, parts: seq<string>): string {
    if parts == [] then ""
    else if |parts| == 1 then parts[0]
    else parts[0] + sep + Join(sep, parts[1..])
  }

  /** A character in neither the separator nor any piece is not in their join. */
  lemma {:induction false} JoinFree(sep: string, parts: seq<string>, c: char)
    requires c !in sep && forall i :: 0 <= i < |parts| ==> c !in parts[i]
    ensures c !in Join(sep, parts)
    decreases |parts|
  {
    if |parts| > 1 {
      JoinFree(sep, parts[1..], c);
      assert parts[1..][0] == parts[1];
    }
  }

  /** Joining the pieces of a split with the separator gives back the text. */
  lemma {:induction false} JoinSplit(s: string, c: char)
    ensures Join([c], Split(s, c)) == s
    decreases |s|
  {
    match IndexOf(s, [c], 0)
    case None =>
    case Some(i) =>
      var rest := Split(s[i + 1..], c);
      JoinSplit(s[i + 1..], c);
      assert Split(s, c) == [s[..i]] + rest;
      assert s == s[..i] + [c] + s[i + 1..];
  }

  /** Splitting a join of pieces free of the separator gives back the pieces. */
  lemma {:induction false} SplitJoin(parts: seq<string>, c: char)
    requires parts != []
    requires forall i :: 0 <= i < |parts| ==> c !in parts[i]
    ensures Split(Join([c], parts), c) == parts
  {
    var p := parts[0];
    var s := Join([c], parts);
    NoSeparatorIndex(p, c);
    if |parts| == 1 {
      assert IndexOf(p, [c], 0) == None;
    } else {
      var rest := Join([c], parts[1..]);
      assert s == p + [c] + rest;
      FirstSeparator(p, rest, c);
      assert s[..|p|] == p && s[|p| + 1..] == rest;
      SplitJoin(parts[1..], c);
    }
  }

  lemma NoSeparatorIndex(p: string, c: char)
    requires c !in p
    ensures IndexOf(p, [c], 0) == None
  {
    forall j: nat | j < |p| ensures !OccursAt(p, [c], j) {
      assert p[j..j + 1] == [p[j]];
    }
  }

  lemma FirstSeparator(p: string, rest: string, c: char)
    requires c !in p
    ensures IndexOf(p + [c] + rest, [c], 0) == Some(|p|)
  {
    var s := p + [c] + rest;
    assert OccursAt(s, [c], |p|);
    forall j: nat | j < |p| ensures !OccursAt(s, [c], j) {
      assert s[j..j + 1] == [p[j]];
    }
  }

  /** A piece placed between two others occurs in the whole. */
  lemma ContainsMiddle(a: string, b: string, c: string)
    ensures Contains(a + b + c, b)
  {
    assert (a + b + c)[|a|..|a| + |b|] == b;
    assert OccursAt(a + b + c, b, |a|);
  }

  /** What occurs in a piece occurs in any text around it. */
  lemma ContainsIn(a: string, m: string, c: string, sub: string)
    requires Contains(m, sub)
    ensures Contains(a + m + c, sub)
  {
    var i: nat :| i <= |m| && OccursAt(m, sub, i);
    assert (a + m + c)[|a| + i..|a| + i + |sub|] == m[i..i + |sub|];
    assert OccursAt(a + m + c, sub, |a| + i);
  }

  /** What occurs in a prefix occurs in the whole. */
  lemma ContainsInPrefix(p: string, rest: string, sub: string)
    requires Contains(p, sub)
    ensures Contains(p + rest, sub)
  {
    var i: nat :| i <= |p| && OccursAt(p, sub, i);
    assert (p + rest)[i..i + |sub|] == p[i..i + |sub|];
    assert OccursAt(p + rest, sub, i);
  }

  /** A text occurs in anything it ends. */
  lemma ContainsSuffix(p: string, sub: string)
    ensures Contains(p + sub, sub)
  {
    assert (p + sub)[|p|..|p| + |sub|] == sub;
    assert OccursAt(p + sub, sub, |p|);
  }

  /** A concatenation starts with its first piece and ends with its last. */
  lemma ConcatEnds(a: string, m: string, c: string)
    ensures StartsWith(a + m + c, a) && EndsWith(a + m + c, c)
  {
    assert (a + m + c)[..|a|] == a;
    assert (a + m + c)[|a + m + c| - |c|..] == c;
  }

  /** The three parts of a concatenation are where they were put. */
  lemma PartAt(x: string, y: string, z: string)
    ensures (x + y + z)[..|x|] == x
    ensures (x + y + z)[|x|..|x| + |y|] == y
    ensures (x + y + z)[|x| + |y|..] == z
  {
    assert (x + y + z)[..|x| + |y|] == x + y;
  }

  /** Concatenation regrouped around its middle three parts. */
  lemma ConcatMiddle(a: string, b: string, c: string, d: string, e: string)
    ensures a + b + c + d + e == a + (b + c + d) + e
  {
  }

  function DigitString(d: nat): string
    requires d < 10
  {
    ["0123456789"[d]]
  }

  /** `str(n)` for a natural number. */
  function NatToString(n: nat): (r: string)
    ensures |r| >= 1
    ensures forall i :: 0 <= i < |r| ==> IsDigit(r[i])
  {
    if n < 10 then DigitString(n) else NatToString(n / 10) + DigitString(n % 10)
  }

  /** `s.replace(pat, "")`: remove the non-overlapping occurrences of `pat`, scanning left to right. */
  function RemoveAll(s: string, pat: string): (r: string)
    requires pat != ""
    ensures |r| <= |s|
    decreases |s|
  {
    if s == [] then []
    else if StartsWith(s, pat) then RemoveAll(s[|pat|..], pat)
    else [s[0]] + RemoveAll(s[1..], pat)
  }

  lemma {:induction false} RemoveAllAbsent(s: string, pat: string)
    requires pat != ""
    requires !Contains(s, pat)
    ensures RemoveAll(s, pat) == s
    decreases |s|
  {
    if s != [] {
      if StartsWith(s, pat) {
        assert OccursAt(s, pat, 0);
      } else {
        assert !Contains(s[1..], pat) by {
          if Contains(s[1..], pat) {
            var i: nat :| i <= |s[1..]| && OccursAt(s[1..], pat, i);
            assert s[1..][i..i + |pat|] == s[i + 1..i + 1 + |pat|];
            assert OccursAt(s, pat, i + 1);
          }
        }
        RemoveAllAbsent(s[1..], pat);
      }
    }
  }

  /** The index of the last character of `s[from..to]` that is not a newline. */
  function LastNonNewline(s: string, lo: nat, hi: nat): (r: Option<nat>)
    requires lo <= hi <= |s|
    ensures r.Some? ==> lo <= r.value < hi && s[r.value] != '\n'
    ensures r.Some? ==> forall k :: r.value < k < hi ==> s[k] == '\n'
    ensures r.None? ==> forall k :: lo <= k < hi ==> s[k] == '\n'
    decreases hi - lo
  {
    if hi == lo then None
    else if s[hi - 1] != '\n' then Some(hi - 1)
    else LastNonNewline(s, lo, hi - 1)
  }

  /** The index of the first newline at or after `from`, or `|s|`. */
  function LineEnd(s: string, from: nat): (e: nat)
    requires from <= |s|
    ensures from <= e <= |s|
    ensures forall k :: from <= k < e ==> s[k] != '\n'
    ensures e < |s| ==> s[e] == '\n'
    decreases |s| - from
  {
    if from == |s| || s[from] == '\n' then from else LineEnd(s, from + 1)
  }

  /** The index of the first character at or after `from` that lies in `stops`, or `|s|`. */
  function ScanUntil(s: string, from: nat, stops: set<char>): (e: nat)
    requires from <= |s|
    ensures from <= e <= |s|
    ensures forall k :: from <= k < e ==> s[k] !in stops
    ensures e < |s| ==> s[e] in stops
    decreases |s| - from
  {
    if from == |s| || s[from] in stops then from else ScanUntil(s, from + 1, stops)
  }

  /** `s.strip(cs)` is determined by where the kept part starts and ends. */
  lemma StripCharsExact(s: string, cs: set<char>, i: nat, j: nat)
    requires i <= j <= |s|
    requires forall k :: 0 <= k < i ==> s[k] in cs
    requires forall k :: j <= k < |s| ==> s[k] in cs
    requires i < j ==> s[i] !in cs && s[j - 1] !in cs
    ensures StripChars(s, cs) == s[i..j]
  {
    var r := StripChars(s, cs);
    var i', j' :| && 0 <= i' <= j' <= |s| && r == s[i'..j']
                  && (forall k :: 0 <= k < i' ==> s[k] in cs)
                  && (forall k :: j' <= k < |s| ==> s[k] in cs);
    if i < j {
      assert r[0] == s[i'] && r[|r| - 1] == s[j' - 1];
    }
  }

  /** A string whose first character of `sub` never occurs cannot contain `sub`. */
  lemma AbsentFirstChar(s: string, sub: string)
    requires |sub| > 0 && sub[0] !in s
    ensures !Contains(s, sub)
  {
    forall i: nat | i <= |s| ensures !OccursAt(s, sub, i) {
      if i + |sub| <= |s| {
        assert s[i..i + |sub|][0] == s[i];
      }
    }
  }

  /** The index of the last occurrence of c (`s.rfind(c)` when it is found). */
  function LastIndexOf(s: string, c: char): (r: Option<nat>)
    ensures r.Some? ==> r.value < |s| && s[r.value] == c && c !in s[r.value + 1..]
    ensures r.None? <==> c !in s
  {
    if s == [] then None
    else if s[|s| - 1] == c then Some(|s| - 1)
    else
      var r := LastIndexOf(s[..|s| - 1], c);
      assert r.Some? ==> s[r.value + 1..] == s[..|s| - 1][r.value + 1..] + [s[|s| - 1]];
      assert r.None? ==> s == s[..|s| - 1] + [s[|s| - 1]];
      r
  }
}
