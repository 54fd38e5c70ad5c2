/**
 * The bridge to the Rust scanner binary: locating it, running it, and cutting the repository
 * JSON out of its output between two markers. Process execution, path existence and JSON
 * parsing are oracles.
 */
module RustBridge {
  import opened Wrappers
  import opened Strings
  import opened Json
  import GitHubScanner

  const StartMarker: string := "__REPO_JSON__"
  const EndMarker: string := "__END_JSON__"

  /** The two candidate locations under the repository root, the one without ".exe" first. */
  function Candidates(root: string): seq<string> {
    var base := root + "/rust-scanner/target/release/github-scanner-rust";
    [base, base + ".exe"]
  }

  /** `_find_rust_binary`: the first candidate that exists. */
  method FindRustBinary(root: string, pathExists: string -> bool) returns (r: Option<string>)
    ensures r.Some? ==> exists i :: 0 <= i < |Candidates(root)| && Candidates(root)[i] == r.value &&
                          pathExists(r.value) && forall j :: 0 <= j < i ==> !pathExists(Candidates(root)[j])
    ensures r.None? <==> forall c :: c in Candidates(root) ==> !pathExists(c)
  {
    var candidates := Candidates(root);
    var i := 0;
    while i < |candidates|
      invariant 0 <= i <= |candidates|
      invariant forall j :: 0 <= j < i ==> !pathExists(candidates[j])
    {
      if pathExists(candidates[i]) {
        return Some(candidates[i]);
      }
      i := i + 1;
    }
    return None;
  }

  /** `subprocess.run` of the binary: completed with a code and stdout, timed out, or failed to start. */
  datatype RunResult = Completed(returnCode: int, stdout: string) | TimedOut | Failed

  /**
   * The text between the markers: from the first start marker plus 14 characters (the marker and
   * a line break) to the first end marker, stripped of whitespace; None when a marker is absent.
   */
  function ExtractRepoJson(output: string): (r: Option<string>)
    ensures r.Some? <==> Contains(output, StartMarker) && Contains(output, EndMarker)
    ensures r.Some? ==> r.value == Strip(Slice(output, IndexOf(output, StartMarker, 0).value + 14,
                                                IndexOf(output, EndMarker, 0).value))
  {
    IndexOfContains(output, StartMarker);
    IndexOfContains(output, EndMarker);
    match (IndexOf(output, StartMarker, 0), IndexOf(output, EndMarker, 0))
    case (Some(start), Some(end)) => Some(Strip(Slice(output, start + 14, end)))
    case _ => None
  }

  /**
   * Well-formed output: JSON text on its own line between the markers is returned unchanged, when
   * the start marker written is the first one in the output and no end marker comes before the
   * one written.
   */
  lemma ExtractFramed(before: string, json: string, after: string)
    requires IndexOf(before + StartMarker, StartMarker, 0) == Some(|before|)
    requires IndexOf(before + StartMarker + "\n" + json, EndMarker, 0).None?
    requires json == [] || (json[0] !in Whitespace && json[|json| - 1] !in Whitespace)
    ensures ExtractRepoJson(before + StartMarker + "\n" + json + "\n" + EndMarker + after) == Some(json)
  {
    StartMarkerFirst(before, json, after);
    EndMarkerFirst(before, json, after);
    MarkersFound(before, json, after);
  }

  /** Both markers found where they were written: the JSON line between them is extracted. */
  lemma MarkersFound(before: string, json: string, after: string)
    requires var out := before + StartMarker + "\n" + json + "\n" + EndMarker + after;
             IndexOf(out, StartMarker, 0) == Some(|before|) &&
             IndexOf(out, EndMarker, 0) == Some(|before| + 14 + |json| + 1)
    requires json == [] || (json[0] !in Whitespace && json[|json| - 1] !in Whitespace)
    ensures ExtractRepoJson(before + StartMarker + "\n" + json + "\n" + EndMarker + after) == Some(json)
  {
    var out := before + StartMarker + "\n" + json + "\n" + EndMarker + after;
    FramedBody(before, json, after);
    ExtractLine(out, |before|, |before| + 14 + |json| + 1, json);
  }

  /** Markers found where expected, with the JSON line between them: the JSON text is extracted. */
  lemma ExtractLine(out: string, s: nat, e: nat, json: string)
    requires IndexOf(out, StartMarker, 0) == Some(s) && IndexOf(out, EndMarker, 0) == Some(e)
    requires s + 14 <= e <= |out| && out[s + 14..e] == json + "\n"
    requires json == [] || (json[0] !in Whitespace && json[|json| - 1] !in Whitespace)
    ensures ExtractRepoJson(out) == Some(json)
  {
    ExtractBetween(out, s, e);
    StripLine(json);
  }

  /** The text is the stripped slice between the first start marker, plus 14, and the first end marker. */
  lemma ExtractBetween(out: string, s: nat, e: nat)
    requires IndexOf(out, StartMarker, 0) == Some(s) && IndexOf(out, EndMarker, 0) == Some(e)
    requires s + 14 <= e
    ensures ExtractRepoJson(out) == Some(Strip(out[s + 14..e]))
  {
    IndexOfContains(out, StartMarker);
    IndexOfContains(out, EndMarker);
  }

  /** A line break after text with no whitespace at either end is stripped away. */
  lemma StripLine(json: string)
    requires json == [] || (json[0] !in Whitespace && json[|json| - 1] !in Whitespace)
    ensures Strip(json + "\n") == json
  {
    var body := json + "\n";
    assert body[|json|] == '\n';
    StripCharsExact(body, Whitespace, 0, |json|);
    assert body[..|json|] == json;
  }

  /** Between the start marker's line break and the end marker lie the JSON text and its line break. */
  lemma FramedBody(before: string, json: string, after: string)
    ensures var out := before + StartMarker + "\n" + json + "\n" + EndMarker + after;
            |before| + 14 + |json| + 1 <= |out| && out[|before| + 14..|before| + 14 + |json| + 1] == json + "\n"
  {
    var out := before + StartMarker + "\n" + json + "\n" + EndMarker + after;
    var head, body := before + StartMarker + "\n", json + "\n";
    assert out == head + body + (EndMarker + after);
  }

  /** An occurrence that ends within a prefix of the text is an occurrence in that prefix. */
  lemma OccursInPrefix(p: string, rest: string, sub: string, j: nat)
    requires j + |sub| <= |p|
    ensures OccursAt(p + rest, sub, j) <==> OccursAt(p, sub, j)
  {
    assert (p + rest)[j..j + |sub|] == p[j..j + |sub|];
  }

  /** When the written start marker is the first in the text up to it, it is the first in the output. */
  lemma StartMarkerFirst(before: string, json: string, after: string)
    requires IndexOf(before + StartMarker, StartMarker, 0) == Some(|before|)
    ensures IndexOf(before + StartMarker + "\n" + json + "\n" + EndMarker + after, StartMarker, 0) == Some(|before|)
  {
    var head, rest := before + StartMarker, "\n" + json + "\n" + EndMarker + after;
    var out := before + StartMarker + "\n" + json + "\n" + EndMarker + after;
    assert out == head + rest;
    forall j: nat | j <= |before| ensures OccursAt(out, StartMarker, j) <==> OccursAt(head, StartMarker, j) {
      OccursInPrefix(head, rest, StartMarker, j);
    }
    IndexOfFirst(out, StartMarker, 0, |before|);
  }

  /** When the text up to the JSON line holds no end marker, the first one is the one written. */
  lemma EndMarkerFirst(before: string, json: string, after: string)
    requires IndexOf(before + StartMarker + "\n" + json, EndMarker, 0).None?
    ensures IndexOf(before + StartMarker + "\n" + json + "\n" + EndMarker + after, EndMarker, 0) ==
            Some(|before| + 14 + |json| + 1)
  {
    EndAfterLine(before + StartMarker + "\n" + json, after);
  }

  /** An end marker written after a line break follows text without one: it is the first. */
  lemma EndAfterLine(p: string, after: string)
    requires IndexOf(p, EndMarker, 0).None?
    ensures IndexOf(p + "\n" + EndMarker + after, EndMarker, 0) == Some(|p| + 1)
  {
    var out := p + "\n" + EndMarker + after;
    assert '\n' !in EndMarker;
    forall j: nat | j < |p| + 1 ensures !OccursAt(out, EndMarker, j) {
      NoEarlyEnd(p, EndMarker, after, j);
    }
    assert OccursAt(out, EndMarker, |p| + 1) by { PartAt(p + "\n", EndMarker, after); }
    IndexOfFirst(out, EndMarker, 0, |p| + 1);
  }

  /**
   * No marker without line breaks starts before one written after a line break: it would lie in
   * the text before the line break, or cover the line break.
   */
  lemma NoEarlyEnd(p: string, m: string, after: string, j: nat)
    requires IndexOf(p, m, 0).None? && '\n' !in m
    requires j <= |p|
    ensures !OccursAt(p + "\n" + m + after, m, j)
  {
    var rest := "\n" + m + after;
    var out := p + "\n" + m + after;
    assert out == p + rest;
    if j + |m| <= |p| {
      OccursInPrefix(p, rest, m, j);
    } else if j + |m| <= |out| {
      assert out[|p|] == '\n';
      assert out[j..j + |m|][|p| - j] == out[|p|];
    }
  }

  datatype System = System(pathExists: string -> bool, run: string -> RunResult, parseJson: JsonParser)

  class RustScanner {
    const token: string
    const rustBinary: Option<string>

    constructor (token: string, root: string, pathExists: string -> bool)
      ensures this.token == token
      ensures rustBinary.Some? ==> pathExists(rustBinary.value) && rustBinary.value in Candidates(root)
      ensures rustBinary.None? <==> forall c :: c in Candidates(root) ==> !pathExists(c)
    {
      this.token := token;
      var found := FindRustBinary(root, pathExists);
      rustBinary := found;
    }

    /** `is_available`: a binary was found and still exists. */
    predicate IsAvailable(pathExists: string -> bool) {
      rustBinary.Some? && pathExists(rustBinary.value)
    }

    /**
     * `scan_and_find_repo`: the parsed repository object, or None when the scanner is not
     * available, the run fails, times out or exits non-zero, a marker is missing, or the text
     * between the markers is not a JSON object.
     */
    method ScanAndFindRepo(sys: System) returns (r: Option<JsonValue>)
      ensures !IsAvailable(sys.pathExists) ==> r.None?
      ensures r.Some? ==> r.value.JObject?
      ensures r.Some? <==> IsAvailable(sys.pathExists) && ScanOutcome(sys.run(rustBinary.value), sys.parseJson).Some?
      ensures r.Some? ==> r == ScanOutcome(sys.run(rustBinary.value), sys.parseJson)
    {
      if !IsAvailable(sys.pathExists) {
        return None;
      }
      var result := sys.run(rustBinary.value);
      r := ScanOutcome(result, sys.parseJson);
    }
  }

  /** What a run of the binary yields, as `scan_and_find_repo` reads it. */
  function ScanOutcome(result: RunResult, parseJson: JsonParser): (r: Option<JsonValue>)
    ensures r.Some? ==> result.Completed? && result.returnCode == 0 && ExtractRepoJson(result.stdout).Some?
    ensures r.Some? ==> parseJson(ExtractRepoJson(result.stdout).value) == r && r.value.JObject?
    ensures result.Completed? && result.returnCode == 0 && ExtractRepoJson(result.stdout).Some? &&
            parseJson(ExtractRepoJson(result.stdout).value).Some? &&
            parseJson(ExtractRepoJson(result.stdout).value).value.JObject? ==>
              r == parseJson(ExtractRepoJson(result.stdout).value)
  {
    match result
    case Completed(code, stdout) =>
      if code != 0 then None
      else (
        match ExtractRepoJson(stdout)
        case None => None
        case Some(text) => (
          match parseJson(text)
          case Some(JObject(members)) => Some(JObject(members))
          case _ => None))
    case TimedOut => None
    case Failed => None
  }

  /** The scanner `get_scanner` picks. */
  datatype Scanner = UseRust(rust: RustScanner) | UsePython(python: GitHubScanner.GitHubScanner)

  /** `get_scanner`: the Rust scanner exactly when it is preferred and available. */
  method GetScanner(token: string, preferRust: bool, root: string, pathExists: string -> bool) returns (s: Scanner)
    ensures s.UseRust? <==> preferRust && RustAvailable(root, pathExists)
    ensures s.UsePython? ==> s.python.token == token
  {
    if preferRust {
      var rust := new RustScanner(token, root, pathExists);
      if rust.IsAvailable(pathExists) {
        return UseRust(rust);
      }
    }
    return UsePython(GitHubScanner.GitHubScanner(token));
  }

  /** Some candidate exists: then the first existing one is found, and it exists. */
  predicate RustAvailable(root: string, pathExists: string -> bool) {
    exists c :: c in Candidates(root) && pathExists(c)
  }
}
