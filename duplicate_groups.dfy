/**
 * What the two duplicate scripts share: the walk over every `index.md` below the blog
 * directory, the repository key of each post, the grouping of posts by key in walk order, and
 * sums over the groups, which do not depend on the order the keys are visited in.
 */
module DuplicateGroups {
  import opened Wrappers
  import opened Paths
  import opened Dicts
  import opened FileOps
  import opened FieldPatterns

  /** The key and full path of every `index.md` that has a repository key, in walk order. */
  function Keyed(blogDir: Path, files: seq<FoundFile>): (r: seq<(string, Path)>)
    ensures |r| <= |files|
    decreases |files|
  {
    if files == [] then []
    else
      var init := Keyed(blogDir, files[..|files| - 1]);
      var f := files[|files| - 1];
      var full := blogDir + f.rel;
      if Name(full) == IndexFile && RepoKey(f.content).Some? then init + [(RepoKey(f.content).value, full)] else init
  }

  /** One more file: the keyed posts grow by its key and path exactly when it is an `index.md` with a key. */
  lemma KeyedStep(blogDir: Path, files: seq<FoundFile>, i: nat)
    requires i < |files|
    ensures var full := blogDir + files[i].rel;
            var key := RepoKey(files[i].content);
            Keyed(blogDir, files[..i + 1]) ==
              Keyed(blogDir, files[..i]) + (if Name(full) == IndexFile && key.Some? then [(key.value, full)] else [])
  {
    assert files[..i + 1][..i] == files[..i];
  }

  /** The group of a key so far, empty for a key not seen yet. */
  function GroupOf<E>(groups: map<string, seq<E>>, k: string): seq<E> {
    if k in groups then groups[k] else []
  }

  /** `repos[key].append(...)` over the keyed posts, a new key added last. */
  function Groups<E>(keyed: seq<(string, Path)>, entryOf: Path -> E): (r: Dict<seq<E>>)
    ensures r.Valid()
    decreases |keyed|
  {
    if keyed == [] then EmptyDict()
    else
      var d := Groups(keyed[..|keyed| - 1], entryOf);
      var (k, p) := keyed[|keyed| - 1];
      d.Put(k, GroupOf(d.entries, k) + [entryOf(p)])
  }

  /** A keyed post added last goes to the end of its key's group. */
  lemma GroupsStep<E>(keyed: seq<(string, Path)>, k: string, p: Path, entryOf: Path -> E)
    ensures Groups(keyed + [(k, p)], entryOf) == Groups(keyed, entryOf).Put(k, GroupOf(Groups(keyed, entryOf).entries, k) + [entryOf(p)])
  {
    assert (keyed + [(k, p)])[..|keyed|] == keyed;
  }

  /** The loop that fills `repos`: the walk in order, each keyed `index.md` added to its key's list. */
  method CollectGroups<E>(blogDir: Path, files: seq<FoundFile>, entryOf: Path -> E) returns (repos: Dict<seq<E>>)
    ensures repos == Groups(Keyed(blogDir, files), entryOf)
  {
    repos := EmptyDict();
    var i := 0;
    assert files[..0] == [];
    while i < |files|
      invariant 0 <= i <= |files|
      invariant repos == Groups(Keyed(blogDir, files[..i]), entryOf)
    {
      repos := AddFile(repos, blogDir, files, i, entryOf);
      i := i + 1;
    }
    assert files[..i] == files;
  }

  /** One pass of that loop: a keyed `index.md` is appended to its key's list, a new key first given an empty one. */
  method AddFile<E>(repos: Dict<seq<E>>, blogDir: Path, files: seq<FoundFile>, i: nat, entryOf: Path -> E) returns (r: Dict<seq<E>>)
    requires i < |files| && repos == Groups(Keyed(blogDir, files[..i]), entryOf)
    ensures r == Groups(Keyed(blogDir, files[..i + 1]), entryOf)
  {
    r := repos;
    KeyedStep(blogDir, files, i);
    var md := blogDir + files[i].rel;
    if Name(md) == IndexFile {
      var key := RepoKey(files[i].content);
      if key.Some? {
        var k := key.value;
        GroupsStep(Keyed(blogDir, files[..i]), k, md, entryOf);
        if k !in r.entries {
          r := r.Put(k, []);
          repos.PutTwice(k, [], GroupOf(repos.entries, k) + [entryOf(md)]);
        }
        r := r.Put(k, r.entries[k] + [entryOf(md)]);
        assert r == repos.Put(k, GroupOf(repos.entries, k) + [entryOf(md)]);
        assert Keyed(blogDir, files[..i + 1]) == Keyed(blogDir, files[..i]) + [(k, md)];
      } else {
        assert Keyed(blogDir, files[..i + 1]) == Keyed(blogDir, files[..i]);
      }
    } else {
      assert Keyed(blogDir, files[..i + 1]) == Keyed(blogDir, files[..i]);
    }
  }

  /** The reference reading of a group: the entries of the posts with key k, in walk order. */
  function EntriesFor<E>(keyed: seq<(string, Path)>, k: string, entryOf: Path -> E): (r: seq<E>)
    decreases |keyed|
  {
    if keyed == [] then []
    else
      var init := EntriesFor(keyed[..|keyed| - 1], k, entryOf);
      var (k', p) := keyed[|keyed| - 1];
      if k' == k then init + [entryOf(p)] else init
  }

  /** A key has a group exactly when some post has that key, and the group lists that key's posts in walk order. */
  lemma {:induction false} GroupsAreEntries<E>(keyed: seq<(string, Path)>, entryOf: Path -> E, k: string)
    ensures k in Groups(keyed, entryOf).entries <==> EntriesFor(keyed, k, entryOf) != []
    ensures k in Groups(keyed, entryOf).entries ==> Groups(keyed, entryOf).entries[k] == EntriesFor(keyed, k, entryOf)
    decreases |keyed|
  {
    if keyed != [] {
      GroupsAreEntries(keyed[..|keyed| - 1], entryOf, k);
    }
  }

  /** The sum of f over the keys. */
  function SumOver(keys: seq<string>, f: string -> nat): nat
    decreases |keys|
  {
    if keys == [] then 0 else SumOver(keys[..|keys| - 1], f) + f(keys[|keys| - 1])
  }

  lemma SumOverStep(keys: seq<string>, i: nat, f: string -> nat)
    requires i < |keys|
    ensures SumOver(keys[..i + 1], f) == SumOver(keys[..i], f) + f(keys[i])
  {
    assert keys[..i + 1][..i] == keys[..i];
  }

  lemma {:induction false} SumOverConcat(s: seq<string>, t: seq<string>, f: string -> nat)
    ensures SumOver(s + t, f) == SumOver(s, f) + SumOver(t, f)
    decreases |t|
  {
    if t == [] {
      assert s + t == s;
    } else {
      var n := |t| - 1;
      SumOverConcat(s, t[..n], f);
      assert (s + t)[..|s + t| - 1] == s + t[..n];
    }
  }

  /** The sum does not depend on the order the keys are visited in. */
  lemma {:induction false} SumOverPermutation(s: seq<string>, t: seq<string>, f: string -> nat)
    requires multiset(s) == multiset(t)
    ensures SumOver(s, f) == SumOver(t, f)
    decreases |s|
  {
    if s != [] {
      var n := |s| - 1;
      var x := s[n];
      assert s == s[..n] + [x];
      assert x in multiset(t);
      var i :| 0 <= i < |t| && t[i] == x;
      var t' := t[..i] + t[i + 1..];
      assert t == t[..i] + [x] + t[i + 1..];
      assert multiset(t) == multiset(t[..i]) + multiset{x} + multiset(t[i + 1..]);
      assert multiset(t') == multiset(t) - multiset{x};
      assert multiset(s) == multiset(s[..n]) + multiset{x};
      assert multiset(s[..n]) == multiset(s) - multiset{x};
      SumOverPermutation(s[..n], t', f);
      SumOverConcat(t[..i], t[i + 1..], f);
      SumOverConcat(t[..i] + [x], t[i + 1..], f);
      SumOverConcat(t[..i], [x], f);
      assert SumOver([x], f) == f(x) by { assert [x][..0] == []; }
    }
  }

  /** How many posts a key has (0 for a key without a group). */
  function Size<E>(groups: map<string, seq<E>>): string -> nat {
    k => if k in groups then |groups[k]| else 0
  }

  /** Adding one post to one group adds one to the sum of the group sizes. */
  lemma {:induction false} SumOverGrow<E>(keys: seq<string>, groups: map<string, seq<E>>, k: string, v: seq<E>)
    requires forall a, b :: 0 <= a < b < |keys| ==> keys[a] != keys[b]
    requires k in keys && k in groups && |v| == |groups[k]| + 1
    ensures SumOver(keys, Size(groups[k := v])) == SumOver(keys, Size(groups)) + 1
    decreases |keys|
  {
    var n := |keys| - 1;
    if keys[n] == k {
      assert k !in keys[..n];
      SumOverSame(keys[..n], groups, k, v);
    } else {
      SumOverGrow(keys[..n], groups, k, v);
    }
  }

  lemma {:induction false} SumOverSame<E>(keys: seq<string>, groups: map<string, seq<E>>, k: string, v: seq<E>)
    requires k !in keys
    ensures SumOver(keys, Size(groups[k := v])) == SumOver(keys, Size(groups))
    decreases |keys|
  {
    if keys != [] {
      SumOverSame(keys[..|keys| - 1], groups, k, v);
    }
  }

  /** The group sizes add up to the number of keyed posts: every keyed post is in exactly one group. */
  lemma {:induction false} GroupsTotal<E>(keyed: seq<(string, Path)>, entryOf: Path -> E)
    ensures SumOver(Groups(keyed, entryOf).keys, Size(Groups(keyed, entryOf).entries)) == |keyed|
    ensures forall k :: k in Groups(keyed, entryOf).entries ==> |Groups(keyed, entryOf).entries[k]| >= 1
    decreases |keyed|
  {
    if keyed != [] {
      var n := |keyed| - 1;
      var d := Groups(keyed[..n], entryOf);
      GroupsTotal(keyed[..n], entryOf);
      var (k, p) := keyed[n];
      var v := GroupOf(d.entries, k) + [entryOf(p)];
      var r := Groups(keyed, entryOf);
      assert r == d.Put(k, v);
      if k in d.entries {
        SumOverGrow(d.keys, d.entries, k, v);
      } else {
        SumOverSame(d.keys, d.entries, k, v);
        assert r.keys == d.keys + [k];
        assert r.keys[..|r.keys| - 1] == d.keys;
      }
    }
  }
}
