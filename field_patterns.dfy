/**
 * The two regular expressions the blog scripts use to find the repository of a post,
 * modelled with Python `re` backtracking:
 *   `^repo:\s*([^\n]+)` with re.MULTILINE (organize_blog_posts, clean_duplicate_blogs,
 *   find_duplicates; migrate_blog's `^repo:\s*(.+)$` captures the same text), and
 *   `full_name:\s*["\']?([^"\'\n]+)`.
 * `\s*` is greedy and may run across newlines; when what follows fails, it gives back one
 * character at a time, the last one first.
 */
module FieldPatterns {
  import opened Wrappers
  import opened Strings

  /** `repo:` starts a line at index p. */
  predicate IsRepoLine(s: string, p: nat) {
    (p == 0 || (p <= |s| && s[p - 1] == '\n')) && OccursAt(s, "repo:", p)
  }

  /** `([^\n]+)` matched at k: the rest of the line, at least one character. */
  function LineGroupAt(s: string, k: nat): (r: Option<string>)
    requires k <= |s|
    ensures r.Some? ==> |r.value| > 0 && '\n' !in r.value
  {
    if k < |s| && s[k] != '\n' then Some(s[k..LineEnd(s, k)]) else None
  }

  /** `\s*([^\n]+)` where `\s*` may stop at q..k: try k first, then shorter runs. */
  function LineBacktrack(s: string, q: nat, k: nat): (r: Option<string>)
    requires q <= k <= |s|
    ensures r.Some? ==> |r.value| > 0 && '\n' !in r.value
    decreases k - q
  {
    match LineGroupAt(s, k)
    case Some(g) => Some(g)
    case None => if k == q then None else LineBacktrack(s, q, k - 1)
  }

  /** The group of `\s*([^\n]+)` matched at q. */
  function RepoGroupAt(s: string, q: nat): (r: Option<string>)
    requires q <= |s|
    ensures r.Some? ==> |r.value| > 0 && '\n' !in r.value
  {
    LineBacktrack(s, q, SpanEnd(s, q, Whitespace))
  }

  /** The `repo:` pattern matches at index j: a line starts there with `repo:` and the group follows. */
  predicate RepoMatchAt(s: string, j: nat) {
    j < |s| && IsRepoLine(s, j) && RepoGroupAt(s, j + 5).Some?
  }

  /** Where re.search for the `repo:` pattern matches from index p on: the first line start that matches. */
  function RepoMatchFrom(s: string, p: nat): (r: Option<nat>)
    requires p <= |s|
    ensures r.Some? ==> p <= r.value < |s| && RepoMatchAt(s, r.value)
    ensures r.Some? ==> forall j :: p <= j < r.value ==> !RepoMatchAt(s, j)
    ensures r.None? ==> forall j :: p <= j < |s| ==> !RepoMatchAt(s, j)
    decreases |s| - p
  {
    if p == |s| then None
    else if RepoMatchAt(s, p) then Some(p)
    else RepoMatchFrom(s, p + 1)
  }

  /** re.search for the `repo:` pattern from index p on, and its group. */
  function RepoFieldFrom(s: string, p: nat): (r: Option<string>)
    requires p <= |s|
    ensures r.Some? ==> exists i :: p <= i < |s| && IsRepoLine(s, i) && RepoGroupAt(s, i + 5) == r
    ensures r.None? ==> forall i :: p <= i < |s| ==> !RepoMatchAt(s, i)
  {
    match RepoMatchFrom(s, p)
    case Some(i) => RepoGroupAt(s, i + 5)
    case None => None
  }

  /** The search returns the group of the first index from p on where the pattern matches. */
  lemma RepoFieldFirst(s: string, p: nat, i: nat)
    requires p <= i && RepoMatchAt(s, i)
    requires forall j :: p <= j < i ==> !RepoMatchAt(s, j)
    ensures RepoFieldFrom(s, p) == RepoGroupAt(s, i + 5)
  {
  }

  /** `re.search(r'^repo:\s*([^\n]+)', s, re.MULTILINE).group(1)`, or None without a match. */
  function RepoField(s: string): (r: Option<string>)
    ensures r.Some? ==> |r.value| > 0 && '\n' !in r.value
  {
    RepoFieldFrom(s, 0)
  }

  /** `["\']?([^"\'\n]+)` matched at k: an optional quote is taken if the group can follow it. */
  function QuotedGroupAt(s: string, k: nat): (r: Option<string>)
    requires k <= |s|
    ensures r.Some? ==> |r.value| > 0 && '\n' !in r.value && forall c :: c in Quotes ==> c !in r.value
  {
    var stops := Quotes + {'\n'};
    if k + 1 < |s| && s[k] in Quotes && s[k + 1] !in stops then Some(s[k + 1..ScanUntil(s, k + 1, stops)])
    else if k < |s| && s[k] !in stops then Some(s[k..ScanUntil(s, k, stops)])
    else None
  }

  function QuotedBacktrack(s: string, q: nat, k: nat): (r: Option<string>)
    requires q <= k <= |s|
    ensures r.Some? ==> |r.value| > 0 && '\n' !in r.value && forall c :: c in Quotes ==> c !in r.value
    decreases k - q
  {
    match QuotedGroupAt(s, k)
    case Some(g) => Some(g)
    case None => if k == q then None else QuotedBacktrack(s, q, k - 1)
  }

  /** The `full_name:` pattern matches at index j: the text occurs there and its group follows. */
  predicate FullNameMatchAt(s: string, j: nat) {
    j < |s| && OccursAt(s, "full_name:", j) && QuotedBacktrack(s, j + 10, SpanEnd(s, j + 10, Whitespace)).Some?
  }

  /** Where re.search for `full_name:` matches from index p on (the pattern is not anchored). */
  function FullNameMatchFrom(s: string, p: nat): (r: Option<nat>)
    requires p <= |s|
    ensures r.Some? ==> p <= r.value < |s| && FullNameMatchAt(s, r.value)
    ensures r.Some? ==> forall j :: p <= j < r.value ==> !FullNameMatchAt(s, j)
    ensures r.None? ==> forall j :: p <= j < |s| ==> !FullNameMatchAt(s, j)
    decreases |s| - p
  {
    if p == |s| then None
    else if FullNameMatchAt(s, p) then Some(p)
    else FullNameMatchFrom(s, p + 1)
  }

  /** re.search for `full_name:` from index p on, and its group. */
  function FullNameFieldFrom(s: string, p: nat): (r: Option<string>)
    requires p <= |s|
    ensures r.Some? ==> exists i :: p <= i < |s| && OccursAt(s, "full_name:", i) &&
                                    QuotedBacktrack(s, i + 10, SpanEnd(s, i + 10, Whitespace)) == r
    ensures r.None? ==> forall i :: p <= i < |s| ==> !FullNameMatchAt(s, i)
  {
    match FullNameMatchFrom(s, p)
    case Some(i) => QuotedBacktrack(s, i + 10, SpanEnd(s, i + 10, Whitespace))
    case None => None
  }

  /** The search returns the group of the first index from p on where the pattern matches. */
  lemma FullNameFieldFirst(s: string, p: nat, i: nat)
    requires p <= i && FullNameMatchAt(s, i)
    requires forall j :: p <= j < i ==> !FullNameMatchAt(s, j)
    ensures FullNameFieldFrom(s, p) == QuotedBacktrack(s, i + 10, SpanEnd(s, i + 10, Whitespace))
  {
  }

  /** `re.search(r'full_name:\s*["\']?([^"\'\n]+)', s).group(1)`, or None without a match. */
  function FullNameField(s: string): (r: Option<string>)
    ensures r.Some? ==> |r.value| > 0 && '\n' !in r.value && forall c :: c in Quotes ==> c !in r.value
  {
    FullNameFieldFrom(s, 0)
  }

  /**
   * The duplicate key of a post, as both duplicate scripts compute it: the `repo:` group
   * stripped of whitespace and then of quotes; if that is missing or empty, the `full_name:`
   * group stripped of whitespace; None (the post is not recorded) when both are empty or absent.
   */
  function RepoKey(content: string): (r: Option<string>)
    ensures r.Some? ==> r.value != ""
    ensures RepoField(content).Some? && StripChars(Strip(RepoField(content).value), Quotes) != "" ==>
              r == Some(StripChars(Strip(RepoField(content).value), Quotes))
    ensures r.Some? && (RepoField(content).None? || StripChars(Strip(RepoField(content).value), Quotes) == "") ==>
              FullNameField(content).Some? && r == Some(Strip(FullNameField(content).value))
    ensures (RepoField(content).None? || StripChars(Strip(RepoField(content).value), Quotes) == "") &&
            FullNameField(content).Some? && Strip(FullNameField(content).value) != "" ==>
              r == Some(Strip(FullNameField(content).value))
  {
    var fromRepo := match RepoField(content) case Some(g) => StripChars(Strip(g), Quotes) case None => "";
    if fromRepo != "" then Some(fromRepo)
    else match FullNameField(content)
      case Some(g) => if Strip(g) != "" then Some(Strip(g)) else None
      case None => None
  }

  /**
   * A `repo:` line at the very start: after the whitespace (which may include line breaks)
   * the group is the rest of the line that holds the first other character.
   */
  lemma RepoFieldOfLeadingLine(ws: string, v: string, tail: string)
    requires forall i :: 0 <= i < |ws| ==> ws[i] in Whitespace
    requires v != [] && v[0] !in Whitespace && '\n' !in v
    requires tail == [] || tail[0] == '\n'
    ensures RepoField("repo:" + ws + v + tail) == Some(v)
  {
    var s := "repo:" + ws + v + tail;
    var e := 5 + |ws|;
    assert s[..5] == "repo:";
    assert IsRepoLine(s, 0);
    SpanEndAt(s, 5, e, Whitespace);
    LineEndAt(s, e, e + |v|);
    assert s[e..e + |v|] == v;
  }

  /**
   * A `repo:` line followed only by blank space whose last character is a space or tab still
   * matches: the group is that one space, so the stripped value is empty.
   */
  lemma RepoFieldOfBlankLine(ws: string)
    requires forall i :: 0 <= i < |ws| ==> ws[i] in Whitespace
    requires ws != [] && ws[|ws| - 1] != '\n'
    ensures RepoField("repo:" + ws).Some? && Strip(RepoField("repo:" + ws).value) == ""
  {
    var s := "repo:" + ws;
    assert s[..5] == "repo:";
    assert IsRepoLine(s, 0);
    SpanEndAt(s, 5, |s|, Whitespace);
    assert LineGroupAt(s, |s|) == None;
    assert LineBacktrack(s, 5, |s|) == LineBacktrack(s, 5, |s| - 1);
    LineEndAt(s, |s| - 1, |s|);
    var g := RepoField(s).value;
    assert g == [s[|s| - 1]];
  }

  lemma SpanEndAt(s: string, from: nat, e: nat, cs: set<char>)
    requires from <= e <= |s|
    requires forall i :: from <= i < e ==> s[i] in cs
    requires e < |s| ==> s[e] !in cs
    ensures SpanEnd(s, from, cs) == e
    decreases e - from
  {
    if from < e { SpanEndAt(s, from + 1, e, cs); }
  }

  lemma LineEndAt(s: string, from: nat, e: nat)
    requires from <= e <= |s|
    requires forall i :: from <= i < e ==> s[i] != '\n'
    requires e < |s| ==> s[e] == '\n'
    ensures LineEnd(s, from) == e
    decreases e - from
  {
    if from < e { LineEndAt(s, from + 1, e); }
  }
}
