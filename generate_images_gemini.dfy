/**
 * The header-image generator: for every `index.md` below the blog directory whose folder has no
 * `header.png`, the title and description are read from the frontmatter and an image is asked
 * for with a fixed prompt built from them.
 *
 * The environment lookup of the API key is a parameter; whether a file exists is an oracle; the
 * image service (`generate_image_gemini`, which catches every error and reports success as a
 * bool) is an oracle of the prompt and the output path. The result is the list of generation
 * requests, in walk order.
 */
module GenerateImagesGemini {
  import opened Wrappers
  import opened Strings
  import opened Paths
  import opened Frontmatter
  import opened FileOps

  const BlogDir: Path := ["website", "src", "content", "blog"]
  const Header: string := "header.png"

  /** `setup_gemini`: it goes on only with a non-empty `GOOGLE_API_KEY`. */
  function SetupGemini(apiKey: Option<string>): (r: bool)
    ensures r <==> apiKey.Some? && apiKey.value != ""
  {
    match apiKey
    case None => false
    case Some(k) => k != ""
  }

  /** What `extract_frontmatter` returns. */
  datatype Extracted = Extracted(frontmatter: string, content: string, file: Path)

  /**
   * `extract_frontmatter`: None unless the text starts with "---" and has a second "---";
   * otherwise the text between the first two markers and the rest after the second.
   */
  function ExtractFrontmatter(md: Path, text: string): (r: Option<Extracted>)
    ensures r.Some? <==> StartsWith(text, Marker) && IndexOf(text, Marker, 3).Some?
    ensures r.Some? ==> text == Marker + r.value.frontmatter + Marker + r.value.content && r.value.file == md
  {
    match SplitFrontmatter(text)
    case None => None
    case Some((fm, rest)) => Some(Extracted(fm, rest, md))
  }

  /** A block without the marker and not ending in '-' is read back exactly, with the text after it. */
  lemma ExtractRoundTrip(md: Path, fm: string, rest: string)
    requires !Contains(fm, Marker) && (fm == [] || fm[|fm| - 1] != '-')
    ensures ExtractFrontmatter(md, Marker + fm + Marker + rest) == Some(Extracted(fm, rest, md))
  {
    SplitFrontmatterOf(fm, rest);
  }

  /** What `parse_metadata` returns: every `key: value` line, key stripped, value stripped and unquoted, the last line of a key winning. */
  function Metadata(fm: string): (r: map<string, string>)
    ensures forall k :: k in r <==> LastValue(Lines(fm), k).Some?
    ensures forall k :: k in r ==> r[k] == Clean(LastValue(Lines(fm), k).value)
  {
    Fields(Lines(fm), Clean)
  }

  /** `parse_metadata`: the line loop that fills `data`. */
  method ParseMetadata(fm: string) returns (data: map<string, string>)
    ensures data == Metadata(fm)
  {
    var lines := Lines(fm);
    data := CollectFields(lines, Clean);
  }

  /** `meta.get(key, '')` */
  function Get(meta: map<string, string>, key: string): (r: string)
    ensures key in meta ==> r == meta[key]
    ensures key !in meta ==> r == ""
  {
    if key in meta then meta[key] else ""
  }

  const PromptHead: string := "Professional 3D infographic for '"
  const PromptJoin: string := "', "
  const PromptTail: string :=
    ". Visualizing real-world application and solution architecture. "
    + "High-end digital art, isometric view, sleek modern design, "
    + "vibrant colors, professional lighting, sharp focus, 16:9 aspect ratio, "
    + "no text, clean composition, tech blog header style."

  /** `create_prompt`: the fixed text around the title and the description; repo and language are not used. */
  function CreatePrompt(title: string, repo: string, language: string, description: string): (r: string)
    ensures |r| == |PromptHead| + |title| + |PromptJoin| + |description| + |PromptTail|
    ensures StartsWith(r, PromptHead) && EndsWith(r, PromptTail)
  {
    ConcatEnds(PromptHead, title + PromptJoin + description, PromptTail);
    ConcatMiddle(PromptHead, title, PromptJoin, description, PromptTail);
    PromptHead + title + PromptJoin + description + PromptTail
  }

  /** The prompt does not depend on the repository or the language. */
  lemma PromptIgnoresRepoAndLanguage(title: string, description: string, repo: string, language: string, repo': string, language': string)
    ensures CreatePrompt(title, repo, language, description) == CreatePrompt(title, repo', language', description)
  {
  }

  /** Titles without an apostrophe: the prompt determines both the title and the description. */
  lemma PromptDeterminesFields(t1: string, d1: string, t2: string, d2: string, repo: string, language: string)
    requires '\'' !in t1 && '\'' !in t2
    requires CreatePrompt(t1, repo, language, d1) == CreatePrompt(t2, repo, language, d2)
    ensures t1 == t2 && d1 == d2
  {
    var j := PromptJoin;
    assert j[0] == '\'';
    SlotsDetermined(PromptHead, j, PromptTail, t1, d1, t2, d2);
  }

  /** Two texts of the shape head, title, join, description, tail, with the join starting with an apostrophe absent from the titles, agree in title and description. */
  lemma SlotsDetermined(h: string, j: string, tail: string, t1: string, d1: string, t2: string, d2: string)
    requires j != [] && j[0] == '\'' && '\'' !in t1 && '\'' !in t2
    requires h + t1 + j + d1 + tail == h + t2 + j + d2 + tail
    ensures t1 == t2 && d1 == d2
  {
    var p1 := h + t1 + j + d1 + tail;
    var p2 := h + t2 + j + d2 + tail;
    TitleEnds(h, t1, j, d1 + tail);
    TitleEnds(h, t2, j, d2 + tail);
    assert p1 == h + t1 + j + (d1 + tail) && p2 == h + t2 + j + (d2 + tail);
    if |t1| < |t2| {
      assert false;
    } else if |t2| < |t1| {
      assert false;
    }
    assert |d1| == |d2|;
    forall k | 0 <= k < |t1| ensures t1[k] == t2[k] {
      assert p1[|h| + k] == t1[k] && p2[|h| + k] == t2[k];
    }
    forall k | 0 <= k < |d1| ensures d1[k] == d2[k] {
      assert p1[|h| + |t1| + |j| + k] == d1[k] && p2[|h| + |t2| + |j| + k] == d2[k];
    }
  }

  /** After the head, the title runs up to the first apostrophe. */
  lemma TitleEnds(h: string, t: string, j: string, rest: string)
    requires j != [] && j[0] == '\'' && '\'' !in t
    ensures (h + t + j + rest)[|h| + |t|] == '\''
    ensures forall k :: |h| <= k < |h| + |t| ==> (h + t + j + rest)[k] != '\''
  {
    var p := h + t + j + rest;
    forall k | |h| <= k < |h| + |t| ensures p[k] != '\'' {
      assert p[k] == t[k - |h|];
    }
  }

  /** One image request: where the image goes, the prompt, the title, and whether the service saved an image. */
  datatype Attempt = Attempt(image: Path, prompt: string, title: string, saved: bool)

  /**
   * One file of the walk: no request unless it is an `index.md` whose folder has no
   * `header.png`, with frontmatter and a non-empty title.
   */
  function PostAttempt(f: FoundFile, present: Path -> bool, generate: (string, Path) -> bool): (r: Option<Attempt>)
    ensures var md := BlogDir + f.rel;
            var image := Parent(md) + [Header];
            var data := ExtractFrontmatter(md, f.content);
            r.Some? <==>
              && Name(md) == IndexFile && !present(image) && data.Some?
              && Get(Metadata(data.value.frontmatter), "title") != ""
    ensures r.Some? ==>
              var md := BlogDir + f.rel;
              var meta := Metadata(ExtractFrontmatter(md, f.content).value.frontmatter);
              && r.value.image == Parent(md) + [Header]
              && r.value.title == Get(meta, "title")
              && r.value.prompt == CreatePrompt(r.value.title, Get(meta, "repo"), Get(meta, "language"), Get(meta, "description"))
              && r.value.saved == generate(r.value.prompt, r.value.image)
  {
    var md := BlogDir + f.rel;
    var image := Parent(md) + [Header];
    if Name(md) != IndexFile || present(image) then None
    else match ExtractFrontmatter(md, f.content)
      case None => None
      case Some(data) =>
        var meta := Metadata(data.frontmatter);
        var title := Get(meta, "title");
        if title == "" then None
        else
          var prompt := CreatePrompt(title, Get(meta, "repo"), Get(meta, "language"), Get(meta, "description"));
          Some(Attempt(image, prompt, title, generate(prompt, image)))
  }

  /** The requests of the loop of `process_blog_posts` over the files found, in walk order. */
  function ProcessAll(files: seq<FoundFile>, present: Path -> bool, generate: (string, Path) -> bool): seq<Attempt>
    decreases |files|
  {
    if files == [] then []
    else
      var init := ProcessAll(files[..|files| - 1], present, generate);
      match PostAttempt(files[|files| - 1], present, generate)
      case None => init
      case Some(a) => init + [a]
  }

  /** The body of the loop of `process_blog_posts` for one file, with its `continue`s. */
  method ProcessOne(f: FoundFile, present: Path -> bool, generate: (string, Path) -> bool) returns (attempt: Option<Attempt>)
    ensures attempt == PostAttempt(f, present, generate)
  {
    var md := BlogDir + f.rel;
    if Name(md) != IndexFile {
      return None;
    }
    var imagePath := Parent(md) + [Header];
    if present(imagePath) {
      return None;
    }
    var data := ExtractFrontmatter(md, f.content);
    if data.None? {
      return None;
    }
    var meta := ParseMetadata(data.value.frontmatter);
    var title := Get(meta, "title");
    var repo := Get(meta, "repo");
    var language := Get(meta, "language");
    var description := Get(meta, "description");
    if title == "" {
      return None;
    }
    var prompt := CreatePrompt(title, repo, language, description);
    var saved := generate(prompt, imagePath);
    return Some(Attempt(imagePath, prompt, title, saved));
  }

  /** `process_blog_posts`: nothing without an API key, otherwise a request for every post that needs one. */
  method ProcessBlogPosts(apiKey: Option<string>, files: seq<FoundFile>, present: Path -> bool, generate: (string, Path) -> bool)
      returns (attempts: seq<Attempt>)
    ensures !SetupGemini(apiKey) ==> attempts == []
    ensures SetupGemini(apiKey) ==> attempts == ProcessAll(files, present, generate)
  {
    attempts := [];
    if !SetupGemini(apiKey) {
      return;
    }
    var i := 0;
    while i < |files|
      invariant 0 <= i <= |files|
      invariant attempts == ProcessAll(files[..i], present, generate)
    {
      assert files[..i + 1][..i] == files[..i] && files[..i + 1][i] == files[i];
      ProcessAllLast(files[..i + 1], files[..i], files[i], present, generate);
      var attempt := ProcessOne(files[i], present, generate);
      if attempt.Some? {
        attempts := attempts + [attempt.value];
      }
      i := i + 1;
    }
    assert files[..i] == files;
  }

  /**
   * Every request is for the `header.png` of a post in the walk that is missing it and has a
   * title, and no post gets more than one: existing images are never regenerated.
   */
  lemma ProcessAllTargets(files: seq<FoundFile>, present: Path -> bool, generate: (string, Path) -> bool)
    ensures |ProcessAll(files, present, generate)| <= |files|
    ensures forall a :: a in ProcessAll(files, present, generate) ==>
              && !present(a.image) && Name(a.image) == Header && a.title != ""
              && exists f :: f in files && PostAttempt(f, present, generate) == Some(a)
  {
    ProcessAllFrom(files, present, generate);
    forall a | a in ProcessAll(files, present, generate)
      ensures !present(a.image) && Name(a.image) == Header && a.title != ""
    {
      var f :| f in files && PostAttempt(f, present, generate) == Some(a);
      AttemptTarget(f, present, generate);
    }
  }

  /** Every request comes from one of the files, at most one per file. */
  lemma {:induction false} ProcessAllFrom(files: seq<FoundFile>, present: Path -> bool, generate: (string, Path) -> bool)
    ensures |ProcessAll(files, present, generate)| <= |files|
    ensures forall a :: a in ProcessAll(files, present, generate) ==>
              exists f :: f in files && PostAttempt(f, present, generate) == Some(a)
    decreases |files|
  {
    if files != [] {
      var init := files[..|files| - 1];
      var last := files[|files| - 1];
      ProcessAllFrom(init, present, generate);
      ProcessAllLast(files, init, last, present, generate);
      forall a | a in ProcessAll(files, present, generate)
        ensures exists f :: f in files && PostAttempt(f, present, generate) == Some(a)
      {
        if a in ProcessAll(init, present, generate) {
          var f :| f in init && PostAttempt(f, present, generate) == Some(a);
          assert f in files;
        } else {
          assert last in files;
        }
      }
    }
  }

  /** One more file adds at most its own request. */
  lemma ProcessAllLast(files: seq<FoundFile>, init: seq<FoundFile>, last: FoundFile, present: Path -> bool, generate: (string, Path) -> bool)
    requires files != [] && init == files[..|files| - 1] && last == files[|files| - 1]
    ensures ProcessAll(files, present, generate) ==
              ProcessAll(init, present, generate) + (if PostAttempt(last, present, generate).Some? then [PostAttempt(last, present, generate).value] else [])
  {
  }

  /** A request is for a missing `header.png` and has a title. */
  lemma AttemptTarget(f: FoundFile, present: Path -> bool, generate: (string, Path) -> bool)
    requires PostAttempt(f, present, generate).Some?
    ensures var a := PostAttempt(f, present, generate).value;
            !present(a.image) && Name(a.image) == Header && a.title != ""
  {
  }

  /**
   * A bundle `<category>/<slug>/index.md` without a `header.png`, whose frontmatter block has a
   * non-empty title: one request for that folder's `header.png`, with the prompt of its title
   * and description.
   */
  lemma BundleRequested(category: string, slug: string, fm: string, rest: string, present: Path -> bool, generate: (string, Path) -> bool)
    requires !present(BlogDir + [category, slug, Header])
    requires !Contains(fm, Marker) && (fm == [] || fm[|fm| - 1] != '-')
    requires Get(Metadata(fm), "title") != ""
    ensures var meta := Metadata(fm);
            var image := BlogDir + [category, slug, Header];
            var prompt := CreatePrompt(Get(meta, "title"), Get(meta, "repo"), Get(meta, "language"), Get(meta, "description"));
            PostAttempt(FoundFile([category, slug, IndexFile], Marker + fm + Marker + rest), present, generate)
              == Some(Attempt(image, prompt, Get(meta, "title"), generate(prompt, image)))
  {
    var f := FoundFile([category, slug, IndexFile], Marker + fm + Marker + rest);
    var md := BlogDir + f.rel;
    FileInFolder(BlogDir, category, slug, IndexFile);
    assert Parent(md) + [Header] == BlogDir + [category, slug, Header];
    ExtractRoundTrip(md, fm, rest);
    AttemptOfFrontmatter(f, fm, present, generate);
  }

  /** A requested `index.md` whose frontmatter is `fm`: the request its title and description give. */
  lemma AttemptOfFrontmatter(f: FoundFile, fm: string, present: Path -> bool, generate: (string, Path) -> bool)
    requires Name(BlogDir + f.rel) == IndexFile && !present(Parent(BlogDir + f.rel) + [Header])
    requires ExtractFrontmatter(BlogDir + f.rel, f.content).Some?
    requires ExtractFrontmatter(BlogDir + f.rel, f.content).value.frontmatter == fm
    requires Get(Metadata(fm), "title") != ""
    ensures var meta := Metadata(fm);
            var image := Parent(BlogDir + f.rel) + [Header];
            var prompt := CreatePrompt(Get(meta, "title"), Get(meta, "repo"), Get(meta, "language"), Get(meta, "description"));
            PostAttempt(f, present, generate) == Some(Attempt(image, prompt, Get(meta, "title"), generate(prompt, image)))
  {
  }
}
