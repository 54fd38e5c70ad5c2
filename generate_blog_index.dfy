/**
 * The blog index generator: its own frontmatter parser (values unquoted, `[...]` values split
 * at commas) and the record it builds for every `index.md` under the blog directory.
 *
 * The files under the blog directory arrive in traversal order, each with its path below that
 * directory and its text; `datetime.now().isoformat()` is an oracle indexed by how many times it
 * was called before. The JSON file the index is written to is left out.
 */
module GenerateBlogIndex {
  import opened Strings
  import opened Paths
  import opened Frontmatter
  import opened FileOps

  /** A frontmatter value: text, or the items of a `[...]` value. */
  datatype IndexValue = Str(text: string) | Items(items: seq<string>)

  /** `value.startswith("[") and value.endswith("]")` */
  predicate Bracketed(v: string) {
    |v| >= 2 && v[0] == '[' && v[|v| - 1] == ']'
  }

  /** The items of `[x.strip().strip('"\'') for x in parts]`. */
  function CleanAll(parts: seq<string>): (r: seq<string>)
    ensures |r| == |parts| && forall i :: 0 <= i < |parts| ==> r[i] == Clean(parts[i])
  {
    seq(|parts|, i requires 0 <= i < |parts| => Clean(parts[i]))
  }

  /** The value rules of `parse_frontmatter`: clean the text; split a `[...]` value into its cleaned comma-separated items. */
  function IndexValueOf(raw: string): (r: IndexValue)
    ensures Bracketed(Clean(raw)) ==> r == Items(CleanAll(Split(Clean(raw)[1..|Clean(raw)| - 1], ',')))
    ensures !Bracketed(Clean(raw)) ==> r == Str(Clean(raw))
  {
    var v := Clean(raw);
    if Bracketed(v) then
      Items(CleanAll(Split(v[1..|v| - 1], ',')))
    else Str(v)
  }

  /** An empty list is one empty item. */
  lemma EmptyList()
    ensures IndexValueOf("[]") == Items([""])
  {
    assert "[" + Join(",", [""]) + "]" == "[]" by {
      assert Join(",", [""]) == "";
    }
    assert Clean("") == "" by {
      CleanNoop("");
    }
    ListRoundTrip([""]);
  }

  /** Cleaning leaves a bracketed text alone. */
  lemma BracketedClean(j: string)
    ensures Clean("[" + j + "]") == "[" + j + "]"
  {
    var v := "[" + j + "]";
    assert v[0] == '[' && v[|v| - 1] == ']';
    CleanNoop(v);
  }

  lemma CleanAllClean(xs: seq<string>)
    requires forall i :: 0 <= i < |xs| ==> Clean(xs[i]) == xs[i]
    ensures CleanAll(xs) == xs
  {
  }

  /** Items that are already clean and hold no comma come back unchanged from their bracketed join. */
  lemma ListRoundTrip(xs: seq<string>)
    requires xs != []
    requires forall i :: 0 <= i < |xs| ==> ',' !in xs[i] && Clean(xs[i]) == xs[i]
    ensures IndexValueOf("[" + Join(",", xs) + "]") == Items(xs)
  {
    var j := Join(",", xs);
    var v := "[" + j + "]";
    BracketedClean(j);
    assert Bracketed(v) && v[1..|v| - 1] == j;
    assert IndexValueOf(v) == Items(CleanAll(Split(j, ',')));
    SplitJoin(xs, ',');
    CleanAllClean(xs);
  }

  /** What `parse_frontmatter` returns: {} without two markers, otherwise the fields of the block. */
  function Metadata(content: string): (r: map<string, IndexValue>)
    ensures SplitFrontmatter(content).None? ==> r == map[]
    ensures SplitFrontmatter(content).Some? ==>
              forall k :: (k in r <==> LastValue(Lines(SplitFrontmatter(content).value.0), k).Some?)
    ensures SplitFrontmatter(content).Some? ==>
              forall k :: k in r ==> r[k] == IndexValueOf(LastValue(Lines(SplitFrontmatter(content).value.0), k).value)
  {
    match SplitFrontmatter(content)
    case None => map[]
    case Some((fm, _)) => Fields(Lines(fm), IndexValueOf)
  }

  /** `parse_frontmatter`: the line loop that fills `data`. */
  method ParseFrontmatter(content: string) returns (data: map<string, IndexValue>)
    ensures data == Metadata(content)
  {
    if !StartsWith(content, Marker) {
      return map[];
    }
    var parts := SplitFrontmatter(content);
    if parts.None? {
      return map[];
    }
    data := CollectFields(Lines(parts.value.0), IndexValueOf);
  }

  /** `data.get(key, "")` */
  function Get(data: map<string, IndexValue>, key: string): (r: IndexValue)
    ensures key in data ==> r == data[key]
    ensures key !in data ==> r == Str("")
  {
    if key in data then data[key] else Str("")
  }

  const Website: Path := ["website"]
  const BlogDir: Path := Website + ["src", "content", "blog"]

  /** One entry of the index. */
  datatype PostRecord = PostRecord(
    slug: string, category: string,
    title: IndexValue, repo: IndexValue, date: IndexValue, description: IndexValue,
    path: string, lastUpdated: string)

  /** The index file: its records and the time it was generated. */
  datatype BlogIndex = BlogIndex(posts: seq<PostRecord>, generatedAt: string)

  /** The record built for one `index.md`, stamped with the given time. */
  function Record(file: FoundFile, data: map<string, IndexValue>, stamp: string): (r: PostRecord)
    ensures '\\' !in r.path
  {
    var full := BlogDir + file.rel;
    var path := ReplaceChar(ToString(full[|Website|..]), '\\', '/');
    ReplaceCharRemoves(ToString(full[|Website|..]), '\\', '/');
    PostRecord(
      Name(Parent(full)), Name(Parent(Parent(full))),
      Get(data, "title"), Get(data, "repo"), Get(data, "date"), Get(data, "description"),
      path, stamp)
  }

  /** A post at `<category>/<slug>/index.md` is indexed under that slug and category, at `src/content/blog/<category>/<slug>/index.md`. */
  lemma RecordOfBundle(category: string, slug: string, content: string, data: map<string, IndexValue>, stamp: string)
    requires '\\' !in category && '\\' !in slug
    ensures var r := Record(FoundFile([category, slug, IndexFile], content), data, stamp);
            && r.slug == slug && r.category == category
            && r.path == ToString(["src", "content", "blog", category, slug, IndexFile])
            && r.title == Get(data, "title") && r.lastUpdated == stamp
  {
    var full := BlogDir + [category, slug, IndexFile];
    var rel := full[|Website|..];
    assert rel == ["src", "content", "blog", category, slug, IndexFile];
    assert Parent(full) == BlogDir + [category, slug];
    assert Parent(Parent(full)) == BlogDir + [category];
    var p := ToString(rel);
    JoinFree("/", rel, '\\');
    assert ReplaceChar(p, '\\', '/') == p;
  }

  /** The `index.md` files among the files found, in traversal order. */
  function IndexFiles(files: seq<FoundFile>): (r: seq<FoundFile>)
    ensures forall f :: f in r ==> f in files && Name(BlogDir + f.rel) == IndexFile
    ensures forall f :: f in files && Name(BlogDir + f.rel) == IndexFile ==> f in r
    decreases |files|
  {
    if files == [] then []
    else
      var init := IndexFiles(files[..|files| - 1]);
      var last := files[|files| - 1];
      assert forall f :: f in files ==> f in files[..|files| - 1] || f == last;
      if Name(BlogDir + last.rel) == IndexFile then init + [last] else init
  }

  /** The records of the loop of `generate_blog_index`, on the prefix: the n-th record is stamped with the n-th clock reading. */
  function Indexed(files: seq<FoundFile>, now: nat -> string): (r: seq<PostRecord>)
    decreases |files|
  {
    if files == [] then []
    else
      var init := Indexed(files[..|files| - 1], now);
      var last := files[|files| - 1];
      if Name(BlogDir + last.rel) == IndexFile then init + [Record(last, Metadata(last.content), now(|init|))] else init
  }

  /** The record of the n-th `index.md`: its own frontmatter and the n-th clock reading. */
  function Stamp(now: nat -> string): (FoundFile, nat) -> PostRecord {
    (f: FoundFile, n: nat) => Record(f, Metadata(f.content), now(n))
  }

  /** rs holds mk of each element of fs, with its position. */
  ghost predicate Aligned<A, B>(fs: seq<A>, rs: seq<B>, mk: (A, nat) -> B) {
    |rs| == |fs| && forall i :: 0 <= i < |fs| ==> rs[i] == mk(fs[i], i)
  }

  /** One record per `index.md`, in traversal order: the i-th from the i-th one's frontmatter and the i-th clock reading. */
  lemma {:induction false} IndexedRecords(files: seq<FoundFile>, now: nat -> string)
    ensures Aligned(IndexFiles(files), Indexed(files, now), Stamp(now))
    decreases |files|
  {
    if files != [] {
      var init := files[..|files| - 1];
      IndexedRecords(init, now);
      var last := files[|files| - 1];
      if Name(BlogDir + last.rel) == IndexFile {
        var fs, rs := IndexFiles(init), Indexed(init, now);
        assert IndexFiles(files) == fs + [last];
        assert Indexed(files, now) == rs + [Stamp(now)(last, |fs|)];
        AlignedAppend(fs, rs, last, Stamp(now));
      } else {
        assert IndexFiles(files) == IndexFiles(init) && Indexed(files, now) == Indexed(init, now);
      }
    }
  }

  /** Aligned lists stay aligned when each gets one more element. */
  lemma AlignedAppend<A, B>(fs: seq<A>, rs: seq<B>, x: A, mk: (A, nat) -> B)
    requires Aligned(fs, rs, mk)
    ensures Aligned(fs + [x], rs + [mk(x, |fs|)], mk)
  {
    var fs', rs' := fs + [x], rs + [mk(x, |fs|)];
    forall i | 0 <= i < |fs'| ensures rs'[i] == mk(fs'[i], i) {
      if i < |fs| {
        assert fs'[i] == fs[i] && rs'[i] == rs[i];
      }
    }
  }

  /** One more file: a record is added exactly when it is an `index.md`, stamped with the count so far. */
  lemma IndexedStep(files: seq<FoundFile>, i: nat, now: nat -> string)
    requires i < |files|
    ensures var init := Indexed(files[..i], now);
            Indexed(files[..i + 1], now) ==
              if Name(BlogDir + files[i].rel) == IndexFile then init + [Record(files[i], Metadata(files[i].content), now(|init|))] else init
  {
    assert files[..i + 1][..i] == files[..i];
  }

  /** The body of the loop of `generate_blog_index` for one file. */
  method IndexOne(posts: seq<PostRecord>, file: FoundFile, now: nat -> string) returns (r: seq<PostRecord>)
    ensures Name(BlogDir + file.rel) == IndexFile ==> r == posts + [Record(file, Metadata(file.content), now(|posts|))]
    ensures Name(BlogDir + file.rel) != IndexFile ==> r == posts
  {
    r := posts;
    if Name(BlogDir + file.rel) == IndexFile {
      var data := ParseFrontmatter(file.content);
      var record := Record(file, data, now(|posts|));
      r := posts + [record];
    }
  }

  /** `generate_blog_index`: the records of every `index.md`, then the generation time. */
  method GenerateBlogIndex(files: seq<FoundFile>, now: nat -> string) returns (index: BlogIndex)
    ensures index.posts == Indexed(files, now)
    ensures index.generatedAt == now(|index.posts|)
  {
    var posts: seq<PostRecord> := [];
    var i := 0;
    while i < |files|
      invariant 0 <= i <= |files|
      invariant posts == Indexed(files[..i], now)
    {
      IndexedStep(files, i, now);
      posts := IndexOne(posts, files[i], now);
      i := i + 1;
    }
    assert files[..i] == files;
    return BlogIndex(posts, now(|posts|));
  }
}
