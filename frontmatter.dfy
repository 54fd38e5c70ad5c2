/**
 * The frontmatter handling shared by the blog scripts: `content.split("---", 2)` after a
 * `startswith("---")` test, the line split of the block, and the fold of `key: value` lines
 * into a dictionary in which a later line overwrites an earlier one with the same key.
 */
module Frontmatter {
  import opened Wrappers
  import opened Strings

  const Marker: string := "---"

  /**
   * `_, fm, rest = content.split("---", 2)` for content starting with "---"; None when the
   * content does not start with the marker or has no second one (the unpacking fails).
   */
  function SplitFrontmatter(content: string): (r: Option<(string, string)>)
    ensures r.Some? <==> StartsWith(content, Marker) && IndexOf(content, Marker, 3).Some?
    ensures r.Some? ==> content == Marker + r.value.0 + Marker + r.value.1
    ensures r.Some? ==> IndexOf(content, Marker, 3) == Some(3 + |r.value.0|)
  {
    if !StartsWith(content, Marker) then None
    else match IndexOf(content, Marker, 3)
      case None => None
      case Some(j) =>
        assert content == content[..3] + content[3..j] + content[j..j + 3] + content[j + 3..];
        Some((content[3..j], content[j + 3..]))
  }

  /**
   * Text that does not hold the marker and does not end in '-' is exactly the block between the
   * markers: the second marker is the first after the opening one.
   */
  lemma SplitFrontmatterOf(fm: string, rest: string)
    requires !Contains(fm, Marker) && (fm == [] || fm[|fm| - 1] != '-')
    ensures SplitFrontmatter(Marker + fm + Marker + rest) == Some((fm, rest))
  {
    var m := Marker;
    var c := m + fm + m + rest;
    var j := 3 + |fm|;
    assert c == (m + fm) + (m + rest);
    assert c[..3] == m && c[3..j] == fm && c[j..j + 3] == m && c[j + 3..] == rest;
    MarkerFirstAt(c, j);
  }

  /** The marker at j, none inside c[3..j], and no '-' just before j: the search from 3 stops at j. */
  lemma MarkerFirstAt(c: string, j: nat)
    requires 3 <= j && OccursAt(c, Marker, j) && !Contains(c[3..j], Marker)
    requires j > 3 ==> c[j - 1] != '-'
    ensures IndexOf(c, Marker, 3) == Some(j)
  {
    forall k: nat | 3 <= k < j ensures !OccursAt(c, Marker, k) {
      if k + 3 <= j {
        var inner := c[3..j];
        assert inner[k - 3] == c[k] && inner[k - 2] == c[k + 1] && inner[k - 1] == c[k + 2];
        assert c[k..k + 3] == [c[k], c[k + 1], c[k + 2]];
        assert inner[k - 3..k] == [inner[k - 3], inner[k - 2], inner[k - 1]];
        assert c[k..k + 3] == inner[k - 3..k];
        assert !OccursAt(c[3..j], Marker, k - 3);
      } else {
        assert c[k..k + 3][j - 1 - k] == c[j - 1];
      }
    }
    IndexOfFirst(c, Marker, 3, j);
  }

  /** `fm.strip().split("\n")` */
  function Lines(fm: string): seq<string> {
    Split(Strip(fm), '\n')
  }

  /** The index at which `line.split(":", 1)` cuts: the first ':', if any. */
  function ColonIndex(line: string): (r: Option<nat>)
    ensures r.Some? <==> ':' in line
    ensures r.Some? ==> r.value < |line| && line[r.value] == ':' && ':' !in line[..r.value]
  {
    match IndexOf(line, ":", 0)
    case None =>
      assert ':' !in line by {
        forall k | 0 <= k < |line| ensures line[k] != ':' { assert !OccursAt(line, ":", k); }
      }
      None
    case Some(i) =>
      assert line[i..i + 1] == ":";
      assert line[i] == ':';
      assert ':' !in line[..i] by {
        forall k | 0 <= k < i ensures line[k] != ':' { assert !OccursAt(line, ":", k); }
      }
      Some(i)
  }

  /** `key, value = line.split(":", 1)` with the key stripped; None for a line without ':'. */
  function Field(line: string): (r: Option<(string, string)>)
    ensures r.Some? <==> ':' in line
  {
    match ColonIndex(line)
    case None => None
    case Some(i) => Some((Strip(line[..i]), line[i + 1..]))
  }

  /** Line `line` is a `key: value` line with key k. */
  predicate HasKey(line: string, k: string) {
    Field(line).Some? && Field(line).value.0 == k
  }

  /** The raw value text of the LAST line whose key is k: the reference reading of "later keys win". */
  function LastValue(lines: seq<string>, k: string): (r: Option<string>)
    decreases |lines|
  {
    if lines == [] then None
    else if HasKey(lines[|lines| - 1], k) then Some(Field(lines[|lines| - 1]).value.1)
    else LastValue(lines[..|lines| - 1], k)
  }

  /** `x.strip().strip('"\'')`: the value cleaning of the frontmatter parsers. */
  function Clean(s: string): (r: string)
    ensures r != [] ==> r[0] !in Quotes && r[|r| - 1] !in Quotes
    ensures |r| <= |s|
  {
    StripChars(Strip(s), Quotes)
  }

  /** Text whose ends are neither whitespace nor quotes is already clean. */
  lemma CleanNoop(s: string)
    requires s == [] || (s[0] !in Whitespace + Quotes && s[|s| - 1] !in Whitespace + Quotes)
    ensures Clean(s) == s
  {
    StripCharsNoop(s, Whitespace);
    StripCharsNoop(s, Quotes);
  }

  /** A later line with key k decides the value of k, whatever came before. */
  lemma LaterLineWins<V>(lines: seq<string>, line: string, k: string, value: string -> V)
    requires HasKey(line, k)
    ensures k in Fields(lines + [line], value) && Fields(lines + [line], value)[k] == value(Field(line).value.1)
  {
    assert (lines + [line])[..|lines|] == lines;
  }

  /** A line without key k leaves the value of k as it was. */
  lemma OtherLineKeeps<V>(lines: seq<string>, line: string, k: string, value: string -> V)
    requires !HasKey(line, k)
    ensures k in Fields(lines + [line], value) <==> k in Fields(lines, value)
    ensures k in Fields(lines, value) ==> Fields(lines + [line], value)[k] == Fields(lines, value)[k]
  {
    assert (lines + [line])[..|lines|] == lines;
  }

  /** Some line has key k exactly when a last such line exists. */
  lemma {:induction false} LastValueExists(lines: seq<string>, k: string)
    ensures LastValue(lines, k).Some? <==> exists i :: 0 <= i < |lines| && HasKey(lines[i], k)
    decreases |lines|
  {
    if lines != [] {
      var n := |lines| - 1;
      var init := lines[..n];
      LastValueExists(init, k);
      assert forall i :: 0 <= i < n ==> init[i] == lines[i];
    }
  }

  /** The keys of the `key: value` lines. */
  function FieldKeys(lines: seq<string>): (r: set<string>)
    ensures forall k :: k in r <==> LastValue(lines, k).Some?
  {
    var r := set line | line in lines && Field(line).Some? :: Field(line).value.0;
    forall k ensures k in r <==> LastValue(lines, k).Some? {
      LastValueExists(lines, k);
    }
    r
  }

  /** The dictionary a frontmatter parser builds: each key with `value` of the raw text of its last line. */
  function Fields<V>(lines: seq<string>, value: string -> V): (r: map<string, V>)
    ensures forall k :: k in r <==> LastValue(lines, k).Some?
    ensures forall k :: k in r ==> r[k] == value(LastValue(lines, k).value)
  {
    map k | k in FieldKeys(lines) :: value(LastValue(lines, k).value)
  }

  /**
   * The loop of every frontmatter parser: for each line containing ':', store
   * `value(raw value)` under the stripped key. The dictionary holds exactly the keys that
   * occur, each with the value of its last line.
   */
  method CollectFields<V>(lines: seq<string>, value: string -> V) returns (data: map<string, V>)
    ensures data == Fields(lines, value)
  {
    data := map[];
    var i := 0;
    while i < |lines|
      invariant 0 <= i <= |lines|
      invariant forall k :: k in data <==> LastValue(lines[..i], k).Some?
      invariant forall k :: k in data ==> data[k] == value(LastValue(lines[..i], k).value)
    {
      assert lines[..i + 1][..i] == lines[..i];
      match Field(lines[i]) {
        case Some((key, raw)) =>
          data := data[key := value(raw)];
        case None =>
      }
      i := i + 1;
    }
    assert lines[..|lines|] == lines;
    assert data.Keys == Fields(lines, value).Keys;
  }
}
