/**
 * The duplicate finder: the posts grouped by repository key (the same walk and key rules as
 * the cleaner), then a report over the keys in sorted order of how many keys have more than
 * one post, every post of such a key, the number of posts and the number of keys. The report
 * is printed in the source; here it is returned.
 */
module FindDuplicates {
  import opened Paths
  import opened Dicts
  import opened FileOps
  import opened FieldPatterns
  import opened Sorting
  import opened DuplicateGroups

  /** The record kept for every post. */
  datatype Entry = Entry(folder: string, path: string, category: string)

  function EntryOf(md: Path): Entry {
    Entry(Name(Parent(md)), ToString(Parent(md)), Name(Parent(Parent(md))))
  }

  const BlogDir: Path := ["website", "src", "content", "blog"]

  /** The `repos` dictionary built from the files below the blog directory. */
  function Repos(files: seq<FoundFile>): (r: Dict<seq<Entry>>)
    ensures r.Valid()
  {
    Groups(Keyed(BlogDir, files), EntryOf)
  }

  /** 1 for a key with more than one post, else 0. */
  function Dup(groups: map<string, seq<Entry>>): string -> nat {
    k => if |GroupOf(groups, k)| > 1 then 1 else 0
  }

  /** The posts of a key with more than one post, else 0. */
  function DupSize(groups: map<string, seq<Entry>>): string -> nat {
    k => if |GroupOf(groups, k)| > 1 then |GroupOf(groups, k)| else 0
  }

  /** `duplicate_paths` after the given keys: every post of every key with more than one, in key order. */
  function DuplicatePaths(keys: seq<string>, groups: map<string, seq<Entry>>): (r: seq<Entry>)
    decreases |keys|
  {
    if keys == [] then []
    else
      var entries := GroupOf(groups, keys[|keys| - 1]);
      DuplicatePaths(keys[..|keys| - 1], groups) + (if |entries| > 1 then entries else [])
  }

  /** The list of duplicated posts holds exactly the posts of the keys with more than one post. */
  lemma {:induction false} DuplicatePathsMembers(keys: seq<string>, groups: map<string, seq<Entry>>, e: Entry)
    ensures e in DuplicatePaths(keys, groups) <==>
              exists i :: 0 <= i < |keys| && |GroupOf(groups, keys[i])| > 1 && e in GroupOf(groups, keys[i])
    decreases |keys|
  {
    if keys != [] {
      var n := |keys| - 1;
      DuplicatePathsMembers(keys[..n], groups, e);
      if e in DuplicatePaths(keys, groups) && e !in DuplicatePaths(keys[..n], groups) {
        assert |GroupOf(groups, keys[n])| > 1 && e in GroupOf(groups, keys[n]);
      }
      if exists i :: 0 <= i < |keys| && |GroupOf(groups, keys[i])| > 1 && e in GroupOf(groups, keys[i]) {
        var i :| 0 <= i < |keys| && |GroupOf(groups, keys[i])| > 1 && e in GroupOf(groups, keys[i]);
        if i < n {
          assert keys[..n][i] == keys[i];
        }
      }
    }
  }

  /** The list of duplicated posts is as long as those keys' posts together. */
  lemma {:induction false} DuplicatePathsLength(keys: seq<string>, groups: map<string, seq<Entry>>)
    ensures |DuplicatePaths(keys, groups)| == SumOver(keys, DupSize(groups))
    decreases |keys|
  {
    if keys != [] {
      DuplicatePathsLength(keys[..|keys| - 1], groups);
    }
  }

  /** Each duplicated key has at least two posts, so the count of duplicated keys is at most half of their posts and at most the number of keys. */
  lemma {:induction false} DupBounds(keys: seq<string>, groups: map<string, seq<Entry>>)
    ensures 2 * SumOver(keys, Dup(groups)) <= SumOver(keys, DupSize(groups))
    ensures SumOver(keys, DupSize(groups)) <= SumOver(keys, Size(groups))
    ensures SumOver(keys, Dup(groups)) <= |keys|
    decreases |keys|
  {
    if keys != [] {
      DupBounds(keys[..|keys| - 1], groups);
    }
  }

  /** No key is counted exactly when no key has more than one post. */
  lemma {:induction false} NoDuplicates(keys: seq<string>, groups: map<string, seq<Entry>>)
    ensures SumOver(keys, Dup(groups)) == 0 <==> forall i :: 0 <= i < |keys| ==> |GroupOf(groups, keys[i])| <= 1
    decreases |keys|
  {
    if keys != [] {
      var n := |keys| - 1;
      NoDuplicates(keys[..n], groups);
      if forall i :: 0 <= i < |keys| ==> |GroupOf(groups, keys[i])| <= 1 {
        assert forall i :: 0 <= i < n ==> keys[..n][i] == keys[i];
      }
      if SumOver(keys, Dup(groups)) == 0 {
        forall i | 0 <= i < |keys| ensures |GroupOf(groups, keys[i])| <= 1 {
          if i < n {
            assert keys[..n][i] == keys[i];
          }
        }
      }
    }
  }

  /** The report loop over the keys in the given order: duplicated keys counted, their posts listed. */
  method ReportKeys(keys: seq<string>, groups: map<string, seq<Entry>>) returns (duplicates: nat, duplicatePaths: seq<Entry>)
    ensures duplicates == SumOver(keys, Dup(groups))
    ensures duplicatePaths == DuplicatePaths(keys, groups)
  {
    duplicates, duplicatePaths := 0, [];
    var i := 0;
    while i < |keys|
      invariant 0 <= i <= |keys|
      invariant duplicates == SumOver(keys[..i], Dup(groups))
      invariant duplicatePaths == DuplicatePaths(keys[..i], groups)
    {
      SumOverStep(keys, i, Dup(groups));
      assert keys[..i + 1][..i] == keys[..i];
      var entries := GroupOf(groups, keys[i]);
      if |entries| > 1 {
        duplicates := duplicates + 1;
        var j := 0;
        while j < |entries|
          invariant 0 <= j <= |entries|
          invariant duplicatePaths == DuplicatePaths(keys[..i], groups) + entries[..j]
        {
          assert entries[..j + 1] == entries[..j] + [entries[j]];
          duplicatePaths := duplicatePaths + [entries[j]];
          j := j + 1;
        }
        assert entries[..j] == entries;
      }
      i := i + 1;
    }
    assert keys[..i] == keys;
  }

  /**
   * `find_duplicates`: the groups and the number of duplicated keys, and the printed summary:
   * the duplicated posts, the total of posts and the number of keys.
   */
  method FindDuplicates(files: seq<FoundFile>)
      returns (repos: Dict<seq<Entry>>, duplicates: nat, duplicatePaths: seq<Entry>, total: nat, unique: nat)
    ensures repos == Repos(files)
    ensures duplicates == SumOver(SortStrings(repos.keys), Dup(repos.entries))
    ensures duplicatePaths == DuplicatePaths(SortStrings(repos.keys), repos.entries)
    ensures total == SumOver(repos.keys, Size(repos.entries)) && unique == |repos.keys|
  {
    repos := CollectGroups(BlogDir, files, EntryOf);
    duplicates, duplicatePaths := ReportKeys(SortStrings(repos.keys), repos.entries);
    total := SumOver(repos.keys, Size(repos.entries));
    unique := |repos.keys|;
  }

  /**
   * The summary in terms of the posts: the total is the number of keyed `index.md` files, the
   * duplicated keys do not depend on the sort, and there are at most half as many of them as posts.
   */
  lemma FindDuplicatesCounts(files: seq<FoundFile>)
    ensures var repos := Repos(files);
            var duplicates := SumOver(SortStrings(repos.keys), Dup(repos.entries));
            && SumOver(repos.keys, Size(repos.entries)) == |Keyed(BlogDir, files)|
            && duplicates == SumOver(repos.keys, Dup(repos.entries))
            && 2 * duplicates <= |Keyed(BlogDir, files)|
            && duplicates <= |repos.keys|
  {
    var repos := Repos(files);
    GroupsTotal(Keyed(BlogDir, files), EntryOf);
    SumOverPermutation(SortStrings(repos.keys), repos.keys, Dup(repos.entries));
    DupBounds(repos.keys, repos.entries);
  }
}
