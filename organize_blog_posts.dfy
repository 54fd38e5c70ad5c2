/**
 * The script that turns loose blog posts into page bundles: the frontmatter parser, the
 * slug taken from the `repo:` field or from the file name, the conversion of one post into
 * `<category>/<slug>/index.md`, and the loop over all loose posts.
 *
 * The posts arrive with their text, in traversal order; `json.loads` and the category
 * chooser of the markdown writer are oracles, and the script's file writes and deletions are
 * returned as a list of operations.
 */
module OrganizeBlogPosts {
  import opened Wrappers
  import opened Strings
  import opened Json
  import opened Paths
  import opened FileOps
  import opened Frontmatter
  import opened FieldPatterns

  /** A frontmatter value: text, or what `json.loads` made of a `[...]` value. */
  datatype MetaValue = Text(text: string) | Parsed(json: JsonValue)

  /**
   * The value rules of `parse_frontmatter`: strip; a `[...]` value is replaced by its JSON parse
   * when that succeeds and kept otherwise; a value wrapped in double quotes loses the first and
   * last character.
   */
  function ParseValue(parseJson: JsonParser, raw: string): (r: MetaValue)
    ensures var v := Strip(raw);
            && (StartsWith(v, "[") && EndsWith(v, "]") ==>
                  r == (if parseJson(v).Some? then Parsed(parseJson(v).value) else Text(v)))
            && (!(StartsWith(v, "[") && EndsWith(v, "]")) && StartsWith(v, "\"") && EndsWith(v, "\"") ==>
                  r == Text(if |v| >= 2 then v[1..|v| - 1] else ""))
            && (!(StartsWith(v, "[") && EndsWith(v, "]")) && !(StartsWith(v, "\"") && EndsWith(v, "\"")) ==>
                  r == Text(v))
  {
    var v := Strip(raw);
    if StartsWith(v, "[") && EndsWith(v, "]") then
      match parseJson(v)
      case Some(j) => Parsed(j)
      case None => Text(v)
    else if StartsWith(v, "\"") && EndsWith(v, "\"") then Text(Slice(v, 1, |v| - 1))
    else Text(v)
  }

  /** A quoted value without surrounding blanks comes back as the text between the quotes. */
  lemma QuotedValue(parseJson: JsonParser, x: string)
    ensures ParseValue(parseJson, "\"" + x + "\"") == Text(x)
  {
    var q := "\"" + x + "\"";
    StripCharsExact(q, Whitespace, 0, |q|);
    assert q[1..|q| - 1] == x;
  }

  /** What `parse_frontmatter` returns: {} without two markers, otherwise the fields of the block. */
  function Metadata(parseJson: JsonParser, content: string): (r: map<string, MetaValue>)
    ensures SplitFrontmatter(content).None? ==> r == map[]
    ensures SplitFrontmatter(content).Some? ==>
              forall k :: (k in r <==> LastValue(Lines(SplitFrontmatter(content).value.0), k).Some?)
    ensures SplitFrontmatter(content).Some? ==>
              forall k :: k in r ==> r[k] == ParseValue(parseJson, LastValue(Lines(SplitFrontmatter(content).value.0), k).value)
  {
    match SplitFrontmatter(content)
    case None => map[]
    case Some((fm, _)) => Fields(Lines(fm), raw => ParseValue(parseJson, raw))
  }

  /** `parse_frontmatter`: the line loop that fills the metadata dictionary. */
  method ParseFrontmatter(parseJson: JsonParser, content: string) returns (metadata: map<string, MetaValue>)
    ensures metadata == Metadata(parseJson, content)
  {
    if !StartsWith(content, Marker) {
      return map[];
    }
    var parts := SplitFrontmatter(content);
    if parts.None? {
      return map[];
    }
    var fm := parts.value.0;
    metadata := CollectFields(Lines(fm), raw => ParseValue(parseJson, raw));
  }

  /** The `8digits-` prefix that `^\d{8}-` matches. */
  predicate CompactDatePrefix(s: string) {
    |s| >= 9 && (forall i :: 0 <= i < 8 ==> IsDigit(s[i])) && s[8] == '-'
  }

  /** `get_slug_from_filename`: drop every ".md", then a compact date prefix, then a dashed one. */
  function SlugFromFilename(filename: string): (r: string)
    ensures |r| <= |filename|
  {
    var name := RemoveAll(filename, ".md");
    var name := if CompactDatePrefix(name) then name[9..] else name;
    if DashedDatePrefix(name) then name[11..] else name
  }

  /** Removing a pattern from a text whose first part holds no occurrence start keeps that part. */
  lemma {:induction false} RemoveAllKeepsPrefix(a: string, b: string, pat: string)
    requires pat != ""
    requires forall i: nat | i < |a| :: !OccursAt(a + b, pat, i)
    ensures RemoveAll(a + b, pat) == a + RemoveAll(b, pat)
    decreases |a|
  {
    if a != [] {
      var s := a + b;
      assert !OccursAt(s, pat, 0);
      assert !StartsWith(s, pat);
      assert s[1..] == a[1..] + b;
      forall i: nat | i < |a[1..]| ensures !OccursAt(a[1..] + b, pat, i) {
        assert !OccursAt(s, pat, i + 1);
        if i + |pat| <= |a[1..] + b| {
          assert (a[1..] + b)[i..i + |pat|] == s[i + 1..i + 1 + |pat|];
        }
      }
      RemoveAllKeepsPrefix(a[1..], b, pat);
      assert s[0] == a[0];
      assert a + RemoveAll(b, pat) == [a[0]] + (a[1..] + RemoveAll(b, pat));
    } else {
      assert a + b == b;
    }
  }

  /** A name with no ".md" of its own loses only the extension. */
  lemma RemoveExtension(a: string)
    requires !Contains(a, ".md")
    ensures RemoveAll(a + ".md", ".md") == a
  {
    var s := a + ".md";
    forall i: nat | i < |a| ensures !OccursAt(s, ".md", i) {
      if i + 3 <= |a| {
        assert s[i..i + 3] == a[i..i + 3];
        assert !OccursAt(a, ".md", i);
      } else if i + 2 == |a| {
        assert s[i + 2] == '.';
      } else {
        assert s[i + 1] == '.';
      }
    }
    RemoveAllKeepsPrefix(a, ".md", ".md");
    assert ".md"[3..] == [];
    assert RemoveAll(".md", ".md") == RemoveAll([], ".md");
  }

  /** A prefix without dots adds no ".md" to a text that has none. */
  lemma NoExtensionAfter(p: string, slug: string)
    requires forall k :: 0 <= k < |p| ==> p[k] != '.'
    requires !Contains(slug, ".md")
    ensures !Contains(p + slug, ".md")
  {
    var a := p + slug;
    forall i: nat | i <= |a| ensures !OccursAt(a, ".md", i) {
      if i >= |p| {
        if i + 3 <= |a| {
          assert a[i..i + 3] == slug[i - |p|..i - |p| + 3];
          assert !OccursAt(slug, ".md", i - |p|);
        }
      } else if i + 3 <= |a| {
        assert a[i..i + 3][0] == p[i];
      }
    }
  }

  /** `20251129-<slug>.md` gives `<slug>` when the slug has no ".md" and no dashed date of its own. */
  lemma CompactDatedSlug(date: string, slug: string)
    requires |date| == 8 && forall i :: 0 <= i < 8 ==> IsDigit(date[i])
    requires !Contains(slug, ".md") && !DashedDatePrefix(slug)
    ensures SlugFromFilename(date + "-" + slug + ".md") == slug
  {
    var p := date + "-";
    NoExtensionAfter(p, slug);
    var a := p + slug;
    RemoveExtension(a);
    assert CompactDatePrefix(a) && a[9..] == slug;
  }

  /** `2025-11-29-<slug>.md` gives `<slug>` when the slug has no ".md" and no second dashed date. */
  lemma DashedDatedSlug(date: string, slug: string)
    requires DashedDatePrefix(date + "-") && |date| == 10
    requires !Contains(slug, ".md")
    ensures SlugFromFilename(date + "-" + slug + ".md") == slug
  {
    var p := date + "-";
    NoExtensionAfter(p, slug);
    var a := p + slug;
    RemoveExtension(a);
    assert a[..11] == p;
    assert !CompactDatePrefix(a) by { assert a[4] == '-'; }
    assert a[11..] == slug;
  }

  /** `value.lower().replace('/', '-').replace(' ', '-')` */
  function SlugForm(v: string): (r: string)
    ensures |r| == |v|
    ensures forall i :: 0 <= i < |r| ==> r[i] != '/' && r[i] != ' ' && !('A' <= r[i] <= 'Z')
    ensures forall i :: 0 <= i < |r| ==> r[i] == if LowerChar(v[i]) == '/' || LowerChar(v[i]) == ' ' then '-' else LowerChar(v[i])
  {
    ReplaceChar(ReplaceChar(Lower(v), '/', '-'), ' ', '-')
  }

  /**
   * `get_repo_slug_from_content`: the first `repo:` line, stripped of whitespace and then of quotes,
   * in slug form, even when that leaves nothing; without one, the stripped `full_name:` value; None
   * when neither pattern matches.
   */
  function RepoSlug(content: string): (r: Option<string>)
    ensures RepoField(content).Some? ==> r == Some(SlugForm(StripChars(Strip(RepoField(content).value), Quotes)))
    ensures RepoField(content).None? && FullNameField(content).Some? ==> r == Some(SlugForm(Strip(FullNameField(content).value)))
    ensures r.None? <==> RepoField(content).None? && FullNameField(content).None?
  {
    match RepoField(content)
    case Some(g) => Some(SlugForm(StripChars(Strip(g), Quotes)))
    case None =>
      match FullNameField(content)
      case Some(g) => Some(SlugForm(Strip(g)))
      case None => None
  }

  /** A leading `repo: owner/name` line gives `owner-name`, lowercased. */
  lemma RepoSlugOfLeadingLine(ws: string, v: string, tail: string)
    requires forall i :: 0 <= i < |ws| ==> ws[i] in Whitespace
    requires v != [] && '\n' !in v
    requires v[0] !in Whitespace && v[0] !in Quotes && v[|v| - 1] !in Whitespace && v[|v| - 1] !in Quotes
    requires tail == [] || tail[0] == '\n'
    ensures RepoSlug("repo:" + ws + v + tail) == Some(SlugForm(v))
  {
    var content := "repo:" + ws + v + tail;
    RepoFieldOfLeadingLine(ws, v, tail);
    StripCharsNoop(v, Whitespace);
    assert Strip(v) == v;
    StripCharsNoop(v, Quotes);
    assert RepoSlug(content) == Some(SlugForm(StripChars(Strip(v), Quotes)));
  }

  /** The slug of a post with text: the repository slug when it is not empty, else the file name's. */
  function SlugOf(content: string, filename: string): (r: string)
    ensures RepoSlug(content).Some? && RepoSlug(content).value != "" ==> r == RepoSlug(content).value
    ensures RepoSlug(content).None? || RepoSlug(content).value == "" ==> r == SlugFromFilename(filename)
  {
    match RepoSlug(content)
    case Some(s) => if s != "" then s else SlugFromFilename(filename)
    case None => SlugFromFilename(filename)
  }

  /** A converted post: where its text went, and the writes and deletions that did it. */
  datatype Bundle = Bundle(indexPath: Path, ops: seq<FsOp>)

  /**
   * `convert_to_page_bundle` as written: the slug is bound only inside `if content:`, so with no
   * text or an empty one the fallback test reads an unbound name and the call raises (None).
   */
  function ConvertToPageBundleAsWritten(mdFile: Path, targetDir: Path, content: Option<string>): (r: Option<Bundle>)
    ensures r.None? <==> content.None? || content.value == ""
    ensures r.Some? ==> r.value.indexPath == targetDir + [SlugOf(content.value, Name(mdFile)), IndexFile]
    ensures r.Some? ==> r.value.ops == [WriteText(r.value.indexPath, content.value), Unlink(mdFile)]
  {
    if content.None? || content.value == "" then None
    else
      var index := targetDir + [SlugOf(content.value, Name(mdFile)), IndexFile];
      Some(Bundle(index, [WriteText(index, content.value), Unlink(mdFile)]))
  }

  /** The conversion cannot handle a post whose text is empty, where the file name was meant to decide. */
  lemma EmptyPostFails(mdFile: Path, targetDir: Path)
    ensures ConvertToPageBundleAsWritten(mdFile, targetDir, Some("")).None?
    ensures ConvertToPageBundleAsWritten(mdFile, targetDir, None).None?
  {
  }

  /**
   * `convert_to_page_bundle` with the filename fallback the code means: the slug from the text if it
   * gives one, else from the file name; the text read from the file when none is passed; the bundle
   * written before the original is removed.
   */
  function ConvertToPageBundle(mdFile: Path, targetDir: Path, content: Option<string>, fileText: string): (r: Bundle)
    ensures Name(r.indexPath) == IndexFile && Parent(Parent(r.indexPath)) == targetDir
    ensures content.Some? ==> r.indexPath == targetDir + [SlugOf(content.value, Name(mdFile)), IndexFile]
    ensures content.None? ==> r.indexPath == targetDir + [SlugFromFilename(Name(mdFile)), IndexFile]
    ensures r.ops == [WriteText(r.indexPath, if content.Some? then content.value else fileText), Unlink(mdFile)]
  {
    var slug := match content case Some(c) => SlugOf(c, Name(mdFile)) case None => SlugFromFilename(Name(mdFile));
    var index := targetDir + [slug, IndexFile];
    assert Parent(index) == targetDir + [slug];
    Bundle(index, [WriteText(index, if content.Some? then content.value else fileText), Unlink(mdFile)])
  }

  /** Wherever the code as written works, the corrected conversion does the same; an empty post uses the file name. */
  lemma ConversionAgrees(mdFile: Path, targetDir: Path, content: Option<string>, fileText: string)
    ensures ConvertToPageBundleAsWritten(mdFile, targetDir, content).Some? ==>
              ConvertToPageBundleAsWritten(mdFile, targetDir, content).value == ConvertToPageBundle(mdFile, targetDir, content, fileText)
    ensures content == Some("") ==>
              ConvertToPageBundle(mdFile, targetDir, content, fileText).indexPath == targetDir + [SlugFromFilename(Name(mdFile)), IndexFile]
  {
    if content == Some("") {
      assert RepoField("").None? && FullNameField("").None?;
    }
  }

  /** A loose post as the glob finds it. */
  datatype Post = Post(path: Path, content: string)

  /** `writer._determine_categories(tags, language)` */
  type CategoryChooser = (JsonValue, MetaValue) -> seq<string>

  /** `metadata.get('tags', [])`, with a text value treated as no tags. */
  function Tags(metadata: map<string, MetaValue>): (r: JsonValue)
    ensures "tags" !in metadata || metadata["tags"].Text? ==> r == JArray([])
  {
    if "tags" !in metadata then JArray([])
    else match metadata["tags"]
      case Text(_) => JArray([])
      case Parsed(j) => j
  }

  function Language(metadata: map<string, MetaValue>): MetaValue {
    if "language" in metadata then metadata["language"] else Text("Unknown")
  }

  /** The first category as a directory name, or "general" without any. */
  function PrimaryCategory(categories: seq<string>): (r: string)
    ensures categories == [] ==> r == "general"
    ensures categories != [] ==> |r| == |categories[0]| && ' ' !in r
    ensures categories != [] ==> forall i :: 0 <= i < |r| ==>
              r[i] == if LowerChar(categories[0][i]) == ' ' then '-' else LowerChar(categories[0][i])
  {
    if categories == [] then "general" else ReplaceChar(Lower(categories[0]), ' ', '-')
  }

  /** The bundle a post becomes, given its metadata: under the directory of its first category. */
  function BundleOf(blogDir: Path, choose: CategoryChooser, metadata: map<string, MetaValue>, post: Post): Bundle {
    var category := PrimaryCategory(choose(Tags(metadata), Language(metadata)));
    ConvertToPageBundle(post.path, blogDir + [category], Some(post.content), post.content)
  }

  /** The bundle one post becomes. */
  function Organize(blogDir: Path, parseJson: JsonParser, choose: CategoryChooser, post: Post): Bundle {
    BundleOf(blogDir, choose, Metadata(parseJson, post.content), post)
  }

  /** The loop of `organize_posts`, on the prefix: the number converted and the operations so far. */
  function OrganizeAll(blogDir: Path, parseJson: JsonParser, choose: CategoryChooser, posts: seq<Post>): (r: (nat, seq<FsOp>))
    decreases |posts|
  {
    if posts == [] then (0, [])
    else
      var (count, ops) := OrganizeAll(blogDir, parseJson, choose, posts[..|posts| - 1]);
      var post := posts[|posts| - 1];
      if Name(post.path) == IndexFile then (count, ops)
      else (count + 1, ops + Organize(blogDir, parseJson, choose, post).ops)
  }

  /**
   * The loop of `organize_posts` with the conversion as written: a post whose text is empty makes
   * the conversion raise, which the loop catches, so it is neither counted nor moved.
   */
  function OrganizeAllAsWritten(blogDir: Path, parseJson: JsonParser, choose: CategoryChooser, posts: seq<Post>): (r: (nat, seq<FsOp>))
    decreases |posts|
  {
    if posts == [] then (0, [])
    else
      var (count, ops) := OrganizeAllAsWritten(blogDir, parseJson, choose, posts[..|posts| - 1]);
      var post := posts[|posts| - 1];
      if Name(post.path) == IndexFile then (count, ops)
      else
        var metadata := Metadata(parseJson, post.content);
        var category := PrimaryCategory(choose(Tags(metadata), Language(metadata)));
        match ConvertToPageBundleAsWritten(post.path, blogDir + [category], Some(post.content))
        case None => (count, ops)
        case Some(bundle) => (count + 1, ops + bundle.ops)
  }

  /** The posts whose text is not empty. */
  function WithText(posts: seq<Post>): (r: seq<Post>)
    decreases |posts|
  {
    if posts == [] then []
    else
      var init := WithText(posts[..|posts| - 1]);
      var last := posts[|posts| - 1];
      if last.content == "" then init else init + [last]
  }

  /** The loop as written does exactly what the corrected loop does on the posts that have text. */
  lemma {:induction false} AsWrittenSkipsEmpty(blogDir: Path, parseJson: JsonParser, choose: CategoryChooser, posts: seq<Post>)
    ensures OrganizeAllAsWritten(blogDir, parseJson, choose, posts) == OrganizeAll(blogDir, parseJson, choose, WithText(posts))
    decreases |posts|
  {
    if posts != [] {
      var init := posts[..|posts| - 1];
      var last := posts[|posts| - 1];
      AsWrittenSkipsEmpty(blogDir, parseJson, choose, init);
      if last.content == "" {
        assert WithText(posts) == WithText(init);
      } else {
        var kept := WithText(init) + [last];
        assert WithText(posts) == kept;
        assert kept[..|kept| - 1] == WithText(init) && kept[|kept| - 1] == last;
        var metadata := Metadata(parseJson, last.content);
        var category := PrimaryCategory(choose(Tags(metadata), Language(metadata)));
        ConversionAgrees(last.path, blogDir + [category], Some(last.content), last.content);
      }
    }
  }

  /** As written, the count and the moves cover exactly the loose posts that have text. */
  lemma AsWrittenEffects(blogDir: Path, parseJson: JsonParser, choose: CategoryChooser, posts: seq<Post>)
    ensures OrganizeAllAsWritten(blogDir, parseJson, choose, posts).0 == |Loose(WithText(posts))|
    ensures Paired(Loose(WithText(posts)), OrganizeAllAsWritten(blogDir, parseJson, choose, posts).1,
                   BundleWrite(blogDir, parseJson, choose), PostRemoval)
  {
    AsWrittenSkipsEmpty(blogDir, parseJson, choose, posts);
    OrganizeAllEffects(blogDir, parseJson, choose, WithText(posts));
  }

  /** A loose post with empty text is converted by the corrected loop and not by the loop as written. */
  lemma EmptyPostNotCounted(blogDir: Path, parseJson: JsonParser, choose: CategoryChooser, path: Path)
    requires Name(path) != IndexFile
    ensures OrganizeAllAsWritten(blogDir, parseJson, choose, [Post(path, "")]) == (0, [])
    ensures OrganizeAll(blogDir, parseJson, choose, [Post(path, "")]).0 == 1
  {
    assert [Post(path, "")][..0] == [];
  }

  /** The posts that are not already bundles. */
  function Loose(posts: seq<Post>): (r: seq<Post>)
    ensures forall p :: p in r ==> p in posts && Name(p.path) != IndexFile
    ensures forall p :: p in posts && Name(p.path) != IndexFile ==> p in r
    decreases |posts|
  {
    if posts == [] then []
    else
      var init := Loose(posts[..|posts| - 1]);
      var last := posts[|posts| - 1];
      if Name(last.path) == IndexFile then init else init + [last]
  }

  /** The bundle text written for a post. */
  function BundleWrite(blogDir: Path, parseJson: JsonParser, choose: CategoryChooser): Post -> FsOp {
    (post: Post) => WriteText(Organize(blogDir, parseJson, choose, post).indexPath, post.content)
  }

  /** The deletion of a converted post. */
  function PostRemoval(post: Post): FsOp {
    Unlink(post.path)
  }

  /** ops lists, for each element of xs in order, its `first` operation and then its `second`. */
  ghost predicate Paired<A, B>(xs: seq<A>, ops: seq<B>, first: A -> B, second: A -> B) {
    |ops| == 2 * |xs| && forall i :: 0 <= i < |xs| ==> ops[2 * i] == first(xs[i]) && ops[2 * i + 1] == second(xs[i])
  }

  lemma PairedAppend<A, B>(xs: seq<A>, ops: seq<B>, x: A, first: A -> B, second: A -> B)
    requires Paired(xs, ops, first, second)
    ensures Paired(xs + [x], ops + [first(x), second(x)], first, second)
  {
    var xs', ops' := xs + [x], ops + [first(x), second(x)];
    forall i | 0 <= i < |xs'| ensures ops'[2 * i] == first(xs'[i]) && ops'[2 * i + 1] == second(xs'[i]) {
      if i < |xs| {
        assert xs'[i] == xs[i] && ops'[2 * i] == ops[2 * i] && ops'[2 * i + 1] == ops[2 * i + 1];
      }
    }
  }

  /**
   * Every loose post is converted and counted, `index.md` files are left alone, and each post's
   * bundle is written just before that post is deleted.
   */
  lemma {:induction false} OrganizeAllEffects(blogDir: Path, parseJson: JsonParser, choose: CategoryChooser, posts: seq<Post>)
    ensures OrganizeAll(blogDir, parseJson, choose, posts).0 == |Loose(posts)|
    ensures Paired(Loose(posts), OrganizeAll(blogDir, parseJson, choose, posts).1, BundleWrite(blogDir, parseJson, choose), PostRemoval)
    decreases |posts|
  {
    if posts != [] {
      var init := posts[..|posts| - 1];
      OrganizeAllEffects(blogDir, parseJson, choose, init);
      var last := posts[|posts| - 1];
      if Name(last.path) != IndexFile {
        var b := Organize(blogDir, parseJson, choose, last);
        assert b.ops == [BundleWrite(blogDir, parseJson, choose)(last), PostRemoval(last)];
        PairedAppend(Loose(init), OrganizeAll(blogDir, parseJson, choose, init).1, last, BundleWrite(blogDir, parseJson, choose), PostRemoval);
      }
    }
  }

  /** One more post: it is counted and its operations appended unless it is an `index.md`. */
  lemma OrganizeAllStep(blogDir: Path, parseJson: JsonParser, choose: CategoryChooser, posts: seq<Post>, i: nat)
    requires i < |posts|
    ensures var done := OrganizeAll(blogDir, parseJson, choose, posts[..i]);
            var next := OrganizeAll(blogDir, parseJson, choose, posts[..i + 1]);
            if Name(posts[i].path) == IndexFile then next.0 == done.0 && next.1 == done.1
            else next.0 == done.0 + 1 && next.1 == done.1 + Organize(blogDir, parseJson, choose, posts[i]).ops
  {
    assert posts[..i + 1][..i] == posts[..i] && posts[..i + 1][i] == posts[i];
  }

  /** The body of the loop of `organize_posts` for the i-th post: an `index.md` is skipped, any other post converted and counted. */
  method OrganizeOne(blogDir: Path, parseJson: JsonParser, choose: CategoryChooser, posts: seq<Post>, i: nat, converted: nat, ops: seq<FsOp>)
      returns (converted': nat, ops': seq<FsOp>)
    requires i < |posts|
    requires converted == OrganizeAll(blogDir, parseJson, choose, posts[..i]).0
    requires ops == OrganizeAll(blogDir, parseJson, choose, posts[..i]).1
    ensures converted' == OrganizeAll(blogDir, parseJson, choose, posts[..i + 1]).0
    ensures ops' == OrganizeAll(blogDir, parseJson, choose, posts[..i + 1]).1
  {
    OrganizeAllStep(blogDir, parseJson, choose, posts, i);
    converted', ops' := converted, ops;
    var post := posts[i];
    if Name(post.path) != IndexFile {
      var metadata := ParseFrontmatter(parseJson, post.content);
      var bundle := BundleOf(blogDir, choose, metadata, post);
      ops' := ops + bundle.ops;
      converted' := converted + 1;
    }
  }

  /** `organize_posts`: converts every loose post and counts the conversions. */
  method OrganizePosts(blogDir: Path, parseJson: JsonParser, choose: CategoryChooser, posts: seq<Post>)
      returns (converted: nat, ops: seq<FsOp>)
    ensures converted == OrganizeAll(blogDir, parseJson, choose, posts).0
    ensures ops == OrganizeAll(blogDir, parseJson, choose, posts).1
  {
    converted, ops := 0, [];
    var i := 0;
    while i < |posts|
      invariant 0 <= i <= |posts|
      invariant converted == OrganizeAll(blogDir, parseJson, choose, posts[..i]).0
      invariant ops == OrganizeAll(blogDir, parseJson, choose, posts[..i]).1
    {
      converted, ops := OrganizeOne(blogDir, parseJson, choose, posts, i, converted, ops);
      i := i + 1;
    }
    assert posts[..i] == posts;
  }
}
