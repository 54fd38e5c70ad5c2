/**
 * The duplicate cleaner: posts grouped by repository key, the canonical copy of each group
 * (the longest folder name, the earliest among equals), and the removal of the other copies
 * unless the run is a dry run. `shutil.rmtree` is an oracle that reports whether it succeeded.
 */
module CleanDuplicateBlogs {
  import opened Wrappers
  import opened Paths
  import opened Dicts
  import opened FileOps
  import opened FieldPatterns
  import opened Sorting
  import opened DuplicateGroups

  /** The record kept for every post. */
  datatype Entry = Entry(folder: string, path: string, file: string, category: string)

  function EntryOf(md: Path): Entry {
    Entry(Name(Parent(md)), ToString(Parent(md)), ToString(md), Name(Parent(Parent(md))))
  }

  /** The groups `find_duplicates` returns for the files below `blogDir`. */
  function Repos(blogDir: Path, files: seq<FoundFile>): (r: Dict<seq<Entry>>)
    ensures r.Valid()
  {
    Groups(Keyed(blogDir, files), EntryOf)
  }

  /** `find_duplicates`: every keyed `index.md` appended to the list of its key. */
  method FindDuplicates(blogDir: Path, files: seq<FoundFile>) returns (repos: Dict<seq<Entry>>)
    ensures repos == Repos(blogDir, files)
  {
    repos := CollectGroups(blogDir, files, EntryOf);
  }

  function FolderLength(e: Entry): nat {
    |e.folder|
  }

  /**
   * `determine_canonical`: a single entry is kept with no duplicates; otherwise the entries are
   * sorted by folder length, longest first and stably, and the first is kept. An empty list has
   * no first entry (None).
   */
  function DetermineCanonical(entries: seq<Entry>): (r: Option<(Entry, seq<Entry>)>)
    ensures r.None? <==> entries == []
    ensures r.Some? ==> multiset([r.value.0] + r.value.1) == multiset(entries) && |r.value.1| == |entries| - 1
    ensures r.Some? ==> SortedDesc([r.value.0] + r.value.1, FolderLength)
    ensures r.Some? ==> exists i: nat :: i < |entries| && entries[i] == r.value.0 && FirstLongest(entries, FolderLength, i)
  {
    if entries == [] then None
    else if |entries| == 1 then
      assert entries == [entries[0]] + [];
      assert FirstLongest(entries, FolderLength, 0);
      Some((entries[0], []))
    else
      var sorted := SortDesc(entries, FolderLength);
      SortDescHead(entries, FolderLength);
      assert sorted == [sorted[0]] + sorted[1..];
      Some((sorted[0], sorted[1..]))
  }

  /** Canonical first, then the duplicates: entries with equal folder lengths stay in their listing order. */
  lemma CanonicalStable(entries: seq<Entry>, k: nat)
    requires entries != []
    ensures var (c, dups) := DetermineCanonical(entries).value;
            WithKey([c] + dups, FolderLength, k) == WithKey(entries, FolderLength, k)
  {
    if |entries| > 1 {
      var sorted := SortDesc(entries, FolderLength);
      assert [sorted[0]] + sorted[1..] == sorted;
      SortDescStable(entries, FolderLength, k);
    } else {
      assert [entries[0]] + [] == entries;
    }
  }

  /** An entry listed once in its group is never among that group's duplicates. */
  lemma CanonicalKept(entries: seq<Entry>)
    requires entries != []
    requires forall a, b :: 0 <= a < b < |entries| ==> entries[a] != entries[b]
    ensures DetermineCanonical(entries).value.0 !in DetermineCanonical(entries).value.1
  {
    var (c, dups) := DetermineCanonical(entries).value;
    DistinctOnce(entries, c);
    assert multiset([c] + dups)[c] == 1 + multiset(dups)[c];
  }

  lemma {:induction false} DistinctOnce<T>(s: seq<T>, x: T)
    requires forall a, b :: 0 <= a < b < |s| ==> s[a] != s[b]
    ensures multiset(s)[x] <= 1
    decreases |s|
  {
    if s != [] {
      var n := |s| - 1;
      DistinctOnce(s[..n], x);
      assert s == s[..n] + [s[n]];
      if s[n] == x {
        assert x !in s[..n] by {
          forall a | 0 <= a < n ensures s[..n][a] != x { assert s[a] != s[n]; }
        }
      }
    }
  }

  /** Outside a dry run, the folder of every duplicate in a group is handed to `rmtree`. */
  lemma DuplicateFoldersAttempted(entries: seq<Entry>, rmtree: string -> bool)
    requires |entries| > 1
    ensures forall d :: d in DetermineCanonical(entries).value.1 ==> d.path in CleanGroup(entries, false, rmtree).2
  {
    var dups := DetermineCanonical(entries).value.1;
    forall d | d in dups ensures d.path in CleanGroup(entries, false, rmtree).2 {
      var i :| 0 <= i < |dups| && dups[i] == d;
      assert Removals(dups, false, rmtree).1[i] == d.path;
    }
  }

  /** Of two entries, the one with the longer folder name is kept and the other is the duplicate. */
  lemma LongerOfTwoKept(first: Entry, second: Entry)
    requires |first.folder| < |second.folder|
    ensures DetermineCanonical([first, second]) == Some((second, [first]))
  {
    var s := [first, second];
    assert s[1..] == [second] && [second][1..] == [];
    assert SortDesc([second], FolderLength) == [second];
    assert [second][1..] == [];
    assert InsertDesc(first, [second], FolderLength) == [second, first];
  }

  /**
   * The walk also finds a bundle nested in another. When two such bundles share a repository and
   * the inner one has the longer folder name, the folder removed for the outer one contains the
   * canonical file, so `rmtree` deletes the copy that was meant to be kept.
   */
  lemma NestedCanonicalRemoved(dir: Path, a: string, b: string, rmtree: string -> bool)
    requires dir != [] && |a| < |b|
    ensures var outer := EntryOf(dir + [a, "index.md"]);
            var inner := EntryOf(dir + [a, b, "index.md"]);
            && DetermineCanonical([outer, inner]) == Some((inner, [outer]))
            && CleanGroup([outer, inner], false, rmtree).2 == [outer.path]
            && outer.path + "/" <= inner.file
  {
    var outer := EntryOf(dir + [a, "index.md"]);
    var inner := EntryOf(dir + [a, b, "index.md"]);
    NestedEntries(dir, a, b);
    LongerOfTwoKept(outer, inner);
  }

  /** The records of a bundle and of one nested in it: the inner file lies below the outer folder. */
  lemma NestedEntries(dir: Path, a: string, b: string)
    requires dir != []
    ensures var outer := EntryOf(dir + [a, "index.md"]);
            var inner := EntryOf(dir + [a, b, "index.md"]);
            outer.folder == a && inner.folder == b && outer.path + "/" <= inner.file
  {
    var outer := EntryOf(dir + [a, "index.md"]);
    var inner := EntryOf(dir + [a, b, "index.md"]);
    assert Parent(dir + [a, "index.md"]) == dir + [a];
    FileInFolder(dir, a, b, "index.md");
    assert dir + [a, b, "index.md"] == (dir + [a]) + [b, "index.md"];
    JoinAppend(dir + [a], [b, "index.md"]);
    assert inner.file == (outer.path + "/") + ToString([b, "index.md"]);
  }

  /** The deletions of one group's duplicates: how many succeeded and which folders were attempted. */
  function Removals(dups: seq<Entry>, dryRun: bool, rmtree: string -> bool): (r: (nat, seq<string>))
    ensures dryRun ==> r == (0, [])
    ensures !dryRun ==> |r.1| == |dups| && forall i :: 0 <= i < |dups| ==> r.1[i] == dups[i].path
    ensures r.0 <= |dups|
    decreases |dups|
  {
    if dups == [] || dryRun then (0, [])
    else
      var (removed, attempted) := Removals(dups[..|dups| - 1], dryRun, rmtree);
      var path := dups[|dups| - 1].path;
      (removed + (if rmtree(path) then 1 else 0), attempted + [path])
  }

  /** The inner loop of `clean_duplicates`: removes each duplicate's folder unless the run is dry. */
  method RemoveDuplicates(dups: seq<Entry>, dryRun: bool, rmtree: string -> bool) returns (removed: nat, attempted: seq<string>)
    ensures (removed, attempted) == Removals(dups, dryRun, rmtree)
  {
    removed, attempted := 0, [];
    var j := 0;
    while j < |dups|
      invariant 0 <= j <= |dups|
      invariant (removed, attempted) == Removals(dups[..j], dryRun, rmtree)
    {
      assert dups[..j + 1][..j] == dups[..j];
      if !dryRun {
        attempted := attempted + [dups[j].path];
        if rmtree(dups[j].path) {
          removed := removed + 1;
        }
      }
      j := j + 1;
    }
    assert dups[..j] == dups;
  }

  /** One group's share of the run: the copies beyond the first, those removed, the folders attempted. */
  function CleanGroup(entries: seq<Entry>, dryRun: bool, rmtree: string -> bool): (r: (nat, nat, seq<string>))
  {
    if |entries| > 1 then
      var (more, tried) := Removals(DetermineCanonical(entries).value.1, dryRun, rmtree);
      (|entries| - 1, more, tried)
    else (0, 0, [])
  }

  /** The outer loop of `clean_duplicates` over the keys in the given order: found, removed, attempted folders. */
  function CleanAll(keys: seq<string>, groups: map<string, seq<Entry>>, dryRun: bool, rmtree: string -> bool): (r: (nat, nat, seq<string>))
    decreases |keys|
  {
    if keys == [] then (0, 0, [])
    else
      var done := CleanAll(keys[..|keys| - 1], groups, dryRun, rmtree);
      var step := CleanGroup(GroupOf(groups, keys[|keys| - 1]), dryRun, rmtree);
      (done.0 + step.0, done.1 + step.1, done.2 + step.2)
  }

  lemma CleanAllStep(keys: seq<string>, i: nat, groups: map<string, seq<Entry>>, dryRun: bool, rmtree: string -> bool)
    requires i < |keys|
    ensures var done := CleanAll(keys[..i], groups, dryRun, rmtree);
            var step := CleanGroup(GroupOf(groups, keys[i]), dryRun, rmtree);
            var next := CleanAll(keys[..i + 1], groups, dryRun, rmtree);
            next.0 == done.0 + step.0 && next.1 == done.1 + step.1 && next.2 == done.2 + step.2
  {
    assert keys[..i + 1][..i] == keys[..i] && keys[..i + 1][i] == keys[i];
  }

  /** The body of the loop of `clean_duplicates` for one group. */
  method CleanOne(entries: seq<Entry>, dryRun: bool, rmtree: string -> bool) returns (found: nat, removed: nat, attempted: seq<string>)
    ensures var r := CleanGroup(entries, dryRun, rmtree);
            found == r.0 && removed == r.1 && attempted == r.2
  {
    found, removed, attempted := 0, 0, [];
    if |entries| > 1 {
      found := |entries| - 1;
      var (canonical, dups) := DetermineCanonical(entries).value;
      removed, attempted := RemoveDuplicates(dups, dryRun, rmtree);
    }
  }

  /** `clean_duplicates`: the keys in sorted order, each group with more than one post cleaned. */
  method CleanDuplicates(blogDir: Path, files: seq<FoundFile>, dryRun: bool, rmtree: string -> bool)
      returns (found: nat, removed: nat, attempted: seq<string>)
    ensures var r := CleanAll(SortStrings(Repos(blogDir, files).keys), Repos(blogDir, files).entries, dryRun, rmtree);
            found == r.0 && removed == r.1 && attempted == r.2
  {
    var repos := FindDuplicates(blogDir, files);
    found, removed, attempted := CleanKeys(SortStrings(repos.keys), repos.entries, dryRun, rmtree);
  }

  /** The loop of `clean_duplicates` over the given keys. */
  method CleanKeys(keys: seq<string>, groups: map<string, seq<Entry>>, dryRun: bool, rmtree: string -> bool)
      returns (found: nat, removed: nat, attempted: seq<string>)
    ensures var r := CleanAll(keys, groups, dryRun, rmtree);
            found == r.0 && removed == r.1 && attempted == r.2
  {
    found, removed, attempted := 0, 0, [];
    var i := 0;
    while i < |keys|
      invariant 0 <= i <= |keys|
      invariant found == CleanAll(keys[..i], groups, dryRun, rmtree).0
      invariant removed == CleanAll(keys[..i], groups, dryRun, rmtree).1
      invariant attempted == CleanAll(keys[..i], groups, dryRun, rmtree).2
    {
      CleanAllStep(keys, i, groups, dryRun, rmtree);
      var more, gone, tried := CleanOne(GroupOf(groups, keys[i]), dryRun, rmtree);
      found, removed, attempted := found + more, removed + gone, attempted + tried;
      i := i + 1;
    }
    assert keys[..i] == keys;
  }

  /** The copies beyond the first in a group, 0 for a key without a group. */
  function Extra(groups: map<string, seq<Entry>>): string -> nat {
    k => if k in groups && |groups[k]| > 1 then |groups[k]| - 1 else 0
  }

  /** Found, removed and attempted, as sums over the keys. */
  lemma {:induction false} CleanAllSums(keys: seq<string>, groups: map<string, seq<Entry>>, dryRun: bool, rmtree: string -> bool)
    ensures CleanAll(keys, groups, dryRun, rmtree).0 == SumOver(keys, Extra(groups))
    ensures CleanAll(keys, groups, dryRun, rmtree).1 <= CleanAll(keys, groups, dryRun, rmtree).0
    ensures dryRun ==> CleanAll(keys, groups, dryRun, rmtree).1 == 0 && CleanAll(keys, groups, dryRun, rmtree).2 == []
    decreases |keys|
  {
    if keys != [] {
      CleanAllSums(keys[..|keys| - 1], groups, dryRun, rmtree);
    }
  }

  /** When every group has a post, the extra copies number the posts less the groups. */
  lemma {:induction false} ExtraIsSizeLessOne(keys: seq<string>, groups: map<string, seq<Entry>>)
    requires forall k :: k in keys ==> k in groups && |groups[k]| >= 1
    ensures SumOver(keys, Extra(groups)) + |keys| == SumOver(keys, Size(groups))
    decreases |keys|
  {
    if keys != [] {
      var n := |keys| - 1;
      assert forall k :: k in keys[..n] ==> k in keys;
      ExtraIsSizeLessOne(keys[..n], groups);
      assert keys[n] in keys;
    }
  }

  /**
   * The run reports as found every post beyond the first of its repository, removes at most
   * that many, and removes nothing in a dry run.
   */
  lemma CleanDuplicatesCounts(blogDir: Path, files: seq<FoundFile>, dryRun: bool, rmtree: string -> bool)
    ensures var repos := Repos(blogDir, files);
            var r := CleanAll(SortStrings(repos.keys), repos.entries, dryRun, rmtree);
            && r.0 == |Keyed(blogDir, files)| - |repos.keys|
            && r.1 <= r.0
            && (dryRun ==> r.1 == 0 && r.2 == [])
  {
    var repos := Repos(blogDir, files);
    var keys := SortStrings(repos.keys);
    CleanAllSums(keys, repos.entries, dryRun, rmtree);
    SumOverPermutation(keys, repos.keys, Extra(repos.entries));
    GroupsTotal(Keyed(blogDir, files), EntryOf);
    ExtraIsSizeLessOne(repos.keys, repos.entries);
  }

  /** `'--execute' not in sys.argv` */
  function DryRun(argv: seq<string>): (r: bool)
    ensures !r <==> exists i :: 0 <= i < |argv| && argv[i] == "--execute"
  {
    "--execute" !in argv
  }
}
