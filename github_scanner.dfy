/**
 * `GitHubScanner.validate_repo` and its CI check. The runs endpoint is an oracle from the full
 * name to the HTTP response.
 */
module GitHubScanner {
  import opened Wrappers
  import opened Strings

  /** The fields of a search result that validation reads; a JSON null description is None. */
  datatype Repo = Repo(name: string, fullName: string, description: Option<string>)

  /** A workflow run; its conclusion is null while the run is in progress. */
  datatype Run = Run(conclusion: Option<string>)

  /** The runs response: HTTP status and the `workflow_runs` list (empty when absent). */
  datatype CiResponse = CiResponse(status: int, runs: seq<Run>)

  const Keywords: seq<string> := ["alpha", "test", "demo", "example"]

  /** `_check_ci_status` on a response: the latest run of a 200 response concluded "success". */
  function CheckCiStatus(response: CiResponse): (ok: bool)
    ensures ok <==> response.status == 200 && |response.runs| > 0 && response.runs[0].conclusion == Some("success")
  {
    if response.status == 200 && response.runs != [] then response.runs[0].conclusion == Some("success")
    else false
  }

  /** The lowercase name contains one of the pre-release keywords. */
  predicate Flagged(name: string) {
    exists k :: k in Keywords && Contains(Lower(name), k)
  }

  datatype GitHubScanner = GitHubScanner(token: string) {
    /**
     * `validate_repo`: CI first, then a non-empty description, then the keyword filter, which
     * lets a flagged name through only when it also contains "beta".
     */
    function ValidateRepo(repo: Repo, fetchRuns: string -> CiResponse): (ok: bool)
      ensures !CheckCiStatus(fetchRuns(repo.fullName)) ==> !ok
      ensures repo.description.None? || repo.description.value == "" ==> !ok
      ensures ok && Flagged(repo.name) ==> Contains(Lower(repo.name), "beta")
      ensures (CheckCiStatus(fetchRuns(repo.fullName)) && repo.description.Some? && repo.description.value != "" &&
               (Flagged(repo.name) ==> Contains(Lower(repo.name), "beta"))) ==> ok
    {
      if !CheckCiStatus(fetchRuns(repo.fullName)) then false
      else if repo.description.None? || repo.description.value == "" then false
      else if exists k :: k in Keywords && Contains(Lower(repo.name), k) then Contains(Lower(repo.name), "beta")
      else true
    }
  }

  /** The filter is by substring: "Latest" contains "test" and is rejected even with passing CI. */
  lemma SubstringRejects(s: GitHubScanner, fetchRuns: string -> CiResponse, fullName: string, description: Option<string>)
    ensures !s.ValidateRepo(Repo("Latest", fullName, description), fetchRuns)
  {
    assert Lower("Latest") == "latest";
    assert OccursAt(Lower("Latest"), "test", 2);
    assert "test" in Keywords && Contains(Lower("Latest"), "test");
    AbsentFirstChar(Lower("Latest"), "beta");
  }

  /** A flagged name that also says "beta" passes when CI and description are fine. */
  lemma BetaAllowed(s: GitHubScanner, fetchRuns: string -> CiResponse, fullName: string)
    requires CheckCiStatus(fetchRuns(fullName))
    ensures s.ValidateRepo(Repo("demo-beta", fullName, Some("A tool")), fetchRuns)
  {
    assert OccursAt(Lower("demo-beta"), "beta", 5);
  }
}
