/**
 * The migration of dated posts `<category>/YYYY-MM-DD-<slug>.md` to page bundles
 * `<category>/<slug>/index.md`, moving the post's header image next to it and pointing the
 * frontmatter at it.
 *
 * The `.md` files under the blog directory arrive in walk order, each with its path below that
 * directory and its text. Whether a file exists at the start is an oracle; an image moved by an
 * earlier post is gone for the later ones. The effects are returned as a list of operations.
 */
module MigrateBlog {
  import opened Wrappers
  import opened Strings
  import opened Paths
  import opened FileOps
  import opened FieldPatterns
  import opened Frontmatter

  const BaseDir: Path := ["website", "src", "content", "blog"]
  const ImagesDir: Path := ["website", "public", "images", "blog"]
  const Md: string := ".md"
  const Header: string := "header.png"
  const HeaderSuffix: string := "-" + Header
  const ImagesKey: string := "images:"
  const ImagesBlock: string := ImagesKey + "\n  screenshot: ./" + Header + "\n"

  /** The two groups of the file-name pattern. */
  datatype NameMatch = NameMatch(date: string, slug: string)

  /** The last start of ".md" in lo..j, j tried first: how the greedy `(.+)` gives characters back. */
  function LastMdAt(s: string, lo: nat, j: nat): (r: Option<nat>)
    ensures r.Some? ==> lo <= r.value <= j && OccursAt(s, Md, r.value)
    ensures r.Some? ==> forall k: nat :: r.value < k <= j ==> !OccursAt(s, Md, k)
    ensures r.None? ==> forall k: nat :: lo <= k <= j ==> !OccursAt(s, Md, k)
    decreases j
  {
    if j < lo then None
    else if OccursAt(s, Md, j) then Some(j)
    else if j == 0 then None
    else LastMdAt(s, lo, j - 1)
  }

  /**
   * `re.match(r"(\d{4}-\d{2}-\d{2})-(.+)\.md", name)`: anchored at the start only; the slug
   * runs from after the date to the last ".md" that `.` can reach without crossing a newline.
   */
  function MatchFilename(name: string): (r: Option<NameMatch>)
    ensures r.None? <==>
              !DashedDatePrefix(name) || forall k: nat :: 12 <= k <= LineEnd(name, 11) ==> !OccursAt(name, Md, k)
    ensures r.Some? ==>
              && r.value.date == name[..10] && r.value.slug != [] && '\n' !in r.value.slug
              && 11 + |r.value.slug| <= |name| && name[11..11 + |r.value.slug|] == r.value.slug
              && OccursAt(name, Md, 11 + |r.value.slug|)
  {
    if !DashedDatePrefix(name) then None
    else match LastMdAt(name, 12, LineEnd(name, 11))
      case None => None
      case Some(j) => Some(NameMatch(name[..10], name[11..j]))
  }

  /**
   * The slug is everything up to the LAST ".md": `<date>-<slug>.md<tail>` gives `<slug>` even
   * when the slug itself holds ".md", as long as the tail holds none.
   */
  lemma GreedySlug(date: string, slug: string, tail: string)
    requires |date| == 10 && DashedDatePrefix(date + "-")
    requires slug != [] && '\n' !in slug && '\n' !in tail && !Contains(tail, Md)
    ensures MatchFilename(date + "-" + slug + Md + tail) == Some(NameMatch(date, slug))
  {
    var p := date + "-";
    var name := p + slug + Md + tail;
    assert name[..11] == p;
    assert DashedDatePrefix(name) by {
      forall i | 0 <= i < 11 ensures name[i] == p[i] { }
    }
    var j := 11 + |slug|;
    var e := LineEnd(name, 11);
    assert e == |name| by {
      forall k | 11 <= k < |name| ensures name[k] != '\n' {
        if k < j {
          assert name[k] == slug[k - 11];
        } else if k >= j + 3 {
          assert name[k] == tail[k - j - 3];
        }
      }
    }
    assert name[j..j + 3] == Md;
    forall k: nat | j < k <= e ensures !OccursAt(name, Md, k) {
      if k + 3 <= |name| {
        if k >= j + 3 {
          assert name[k..k + 3] == tail[k - j - 3..k - j];
          assert !OccursAt(tail, Md, k - j - 3);
        } else {
          assert name[k..k + 3][0] == name[k];
        }
      }
    }
    assert 12 <= j <= e && OccursAt(name, Md, j);
    var r := LastMdAt(name, 12, e);
    assert r.Some?;
    assert r.value == j;
    assert name[..10] == date && name[11..j] == slug;
  }

  /**
   * The image looked for: `<images_dir>/<repo with '/' made '-'>-header.png`, where the
   * repository is the stripped `^repo:\s*(.+)$` group; None when there is none or it is empty.
   */
  function ImageFor(content: string): (r: Option<Path>)
    ensures r.Some? <==> RepoField(content).Some? && Strip(RepoField(content).value) != ""
    ensures r.Some? ==>
              |r.value| == |ImagesDir| + 1 && Parent(r.value) == ImagesDir
              && '/' !in Name(r.value) && EndsWith(Name(r.value), HeaderSuffix)
    ensures r.Some? ==> r.value == ImagesDir + [ReplaceChar(Strip(RepoField(content).value), '/', '-') + HeaderSuffix]
  {
    match RepoField(content)
    case None => None
    case Some(g) =>
      var repo := Strip(g);
      if repo == "" then None
      else
        var name := ReplaceChar(repo, '/', '-') + HeaderSuffix;
        ReplaceCharRemoves(repo, '/', '-');
        assert '/' !in HeaderSuffix;
        assert name[|name| - |HeaderSuffix|..] == HeaderSuffix;
        Some(ImagesDir + [name])
  }

  /** A post that opens with `repo: owner/name` looks for `owner-name-header.png`. */
  lemma ImageOfLeadingRepo(ws: string, v: string, tail: string)
    requires forall i :: 0 <= i < |ws| ==> ws[i] in Whitespace
    requires v != [] && v[0] !in Whitespace && v[|v| - 1] !in Whitespace && '\n' !in v
    requires tail == [] || tail[0] == '\n'
    ensures ImageFor("repo:" + ws + v + tail) == Some(ImagesDir + [ReplaceChar(v, '/', '-') + HeaderSuffix])
  {
    RepoFieldOfLeadingLine(ws, v, tail);
    StripCharsNoop(v, Whitespace);
  }

  /** The image moved for a post: its image, when that is there and not moved already. */
  function MovedImage(content: string, present: Path -> bool, moved: set<Path>): (r: Option<Path>)
    ensures r.Some? <==> ImageFor(content).Some? && present(ImageFor(content).value) && ImageFor(content).value !in moved
    ensures r.Some? ==> r == ImageFor(content)
  {
    var image := ImageFor(content);
    if image.Some? && present(image.value) && image.value !in moved then image else None
  }

  /**
   * The frontmatter update after an image was moved: without "images:" in the text, the
   * images block goes just before the first "---" at index 3 or later; with no such "---"
   * the text stays as it is.
   */
  function WithImages(content: string): (r: string)
    ensures Contains(content, ImagesKey) || IndexOf(content, Marker, 3).None? ==> r == content
    ensures !Contains(content, ImagesKey) && IndexOf(content, Marker, 3).Some? ==>
              var p := IndexOf(content, Marker, 3).value;
              |r| == |content| + |ImagesBlock| && r[..p] == content[..p] &&
              r[p..p + |ImagesBlock|] == ImagesBlock && r[p + |ImagesBlock|..] == content[p..]
  {
    if Contains(content, ImagesKey) then content
    else match IndexOf(content, Marker, 3)
      case None => content
      case Some(p) =>
        var r := content[..p] + ImagesBlock + content[p..];
        assert r[p..p + |ImagesBlock|] == ImagesBlock && r[p + |ImagesBlock|..] == content[p..];
        r
  }

  /** After the update the text holds "images:", so a second update changes nothing. */
  lemma WithImagesIdempotent(content: string)
    ensures WithImages(WithImages(content)) == WithImages(content)
  {
    var r := WithImages(content);
    if r != content {
      var p := IndexOf(content, Marker, 3).value;
      assert r[p..p + |ImagesKey|] == ImagesKey by {
        assert r[p..p + |ImagesKey|] == r[p..p + |ImagesBlock|][..|ImagesKey|];
      }
      assert OccursAt(r, ImagesKey, p);
    }
  }

  /**
   * Text spliced in at an occurrence of `m` that shares no character with `m` leaves that
   * occurrence the first one from `lo` on, pushed right by the length of the text.
   */
  lemma InsertKeepsFirst(c: string, p: nat, blk: string, m: string, lo: nat)
    requires blk != [] && m != [] && forall i, k :: 0 <= i < |blk| && 0 <= k < |m| ==> blk[i] != m[k]
    requires OccursAt(c, m, p) && forall k: nat :: lo <= k < p ==> !OccursAt(c, m, k)
    ensures var r := c[..p] + blk + c[p..];
            OccursAt(r, m, p + |blk|) && forall k: nat :: lo <= k < p + |blk| ==> !OccursAt(r, m, k)
  {
    var r := c[..p] + blk + c[p..];
    var b := |blk|;
    assert r[p + b..] == c[p..];
    assert r[p + b..p + b + |m|] == c[p..p + |m|];
    forall k: nat | lo <= k < p + b ensures !OccursAt(r, m, k) {
      if k + |m| <= p {
        assert r[k..k + |m|] == c[k..k + |m|] by {
          assert r[..p] == c[..p];
          assert r[k..k + |m|] == r[..p][k..k + |m|];
        }
        assert !OccursAt(c, m, k);
      } else if k + |m| <= |r| {
        if k < p {
          assert r[p] == blk[0];
          assert r[k..k + |m|][p - k] == r[p];
          assert blk[0] != m[p - k];
        } else {
          assert r[k] == blk[k - p];
          assert r[k..k + |m|][0] == r[k];
          assert blk[k - p] != m[0];
        }
      }
    }
  }

  /** No character of "---" is in the images block. */
  lemma BlockAvoidsMarker()
    ensures forall i, k :: 0 <= i < |ImagesBlock| && 0 <= k < |Marker| ==> ImagesBlock[i] != Marker[k]
  {
    assert forall k :: 0 <= k < |Marker| ==> Marker[k] == '-';
    assert forall i :: 0 <= i < |ImagesBlock| ==> ImagesBlock[i] != '-';
  }

  /**
   * The block goes inside the frontmatter: the "---" it was inserted before is still the first
   * one from index 3 on, so the frontmatter closes where it did.
   */
  lemma WithImagesKeepsClosingMarker(content: string)
    requires !Contains(content, ImagesKey) && IndexOf(content, Marker, 3).Some?
    ensures IndexOf(WithImages(content), Marker, 3) == Some(IndexOf(content, Marker, 3).value + |ImagesBlock|)
  {
    var p := IndexOf(content, Marker, 3).value;
    var r := WithImages(content);
    assert r == content[..p] + ImagesBlock + content[p..];
    BlockAvoidsMarker();
    InsertKeepsIndex(content, p, ImagesBlock, Marker, 3);
  }

  /** The same, stated with `IndexOf`: the occurrence found from `lo` moves right by the inserted text. */
  lemma InsertKeepsIndex(c: string, p: nat, blk: string, m: string, lo: nat)
    requires blk != [] && m != [] && forall i, k :: 0 <= i < |blk| && 0 <= k < |m| ==> blk[i] != m[k]
    requires IndexOf(c, m, lo) == Some(p)
    ensures IndexOf(c[..p] + blk + c[p..], m, lo) == Some(p + |blk|)
  {
    InsertKeepsFirst(c, p, blk, m, lo);
    IndexOfFirst(c[..p] + blk + c[p..], m, lo, p + |blk|);
  }

  /**
   * The operations for one migrated post: the image move when an image was found, then the
   * write of the bundle's `index.md`, and last the removal of the original.
   */
  function BundleOps(md: Path, newDir: Path, text: string, image: Option<Path>): (r: seq<FsOp>)
    ensures |r| == (if image.Some? then 3 else 2)
    ensures r[|r| - 2] == WriteText(newDir + [IndexFile], text) && r[|r| - 1] == Unlink(md)
    ensures image.Some? ==> r[0] == MoveFile(image.value, newDir + [Header])
    ensures forall i :: 0 <= i < |r| && r[i].MoveFile? ==> i == 0 && image == Some(r[i].src)
    ensures forall i :: 0 <= i < |r| && r[i].Unlink? ==> i == |r| - 1
  {
    (if image.Some? then [MoveFile(image.value, newDir + [Header])] else []) + [WriteText(newDir + [IndexFile], text), Unlink(md)]
  }

  /**
   * What the loop body does with one `.md` file, the images in `moved` being gone already:
   * None when it is skipped (an `index.md`, or a name without the date pattern); otherwise the
   * operations for its bundle `<folder>/<slug>/`, the text updated when an image was moved.
   */
  function MigrateFile(md: Path, content: string, present: Path -> bool, moved: set<Path>): (r: Option<seq<FsOp>>)
    ensures r.None? <==> Name(md) == IndexFile || MatchFilename(Name(md)).None?
    ensures r.Some? ==>
              var image := MovedImage(content, present, moved);
              r.value == BundleOps(md, Parent(md) + [MatchFilename(Name(md)).value.slug],
                                   if image.Some? then WithImages(content) else content, image)
  {
    if Name(md) == IndexFile then None
    else match MatchFilename(Name(md))
      case None => None
      case Some(m) =>
        var image := MovedImage(content, present, moved);
        Some(BundleOps(md, Parent(md) + [m.slug], if image.Some? then WithImages(content) else content, image))
  }

  /** The operations so far, and the images they moved. */
  datatype Migrated = Migrated(ops: seq<FsOp>, moved: set<Path>)

  /** `rglob("*.md")` yields the files whose name ends in ".md". */
  predicate Globbed(md: Path) {
    EndsWith(Name(md), Md)
  }

  /** The loop of `migrate_blog_structure` over the files found, in walk order. */
  function MigrateAll(files: seq<FoundFile>, present: Path -> bool): (r: Migrated)
    decreases |files|
  {
    if files == [] then Migrated([], {})
    else MigrateNext(MigrateAll(files[..|files| - 1], present), files[|files| - 1], present)
  }

  /** One more file of the walk: a converted post adds its operations, and its image once it is moved. */
  function MigrateNext(done: Migrated, f: FoundFile, present: Path -> bool): Migrated {
    var md := BaseDir + f.rel;
    var step := if Globbed(md) then MigrateFile(md, f.content, present, done.moved) else None;
    match step
    case None => done
    case Some(ops) =>
      var image := MovedImage(f.content, present, done.moved);
      Migrated(done.ops + ops, done.moved + (if image.Some? then {image.value} else {}))
  }

  /** The next state of the walk, given what converting the file gave and which image it moved. */
  lemma MigrateNextOf(done: Migrated, f: FoundFile, present: Path -> bool, step: Option<seq<FsOp>>, image: Option<Path>)
    requires step == if Globbed(BaseDir + f.rel) then MigrateFile(BaseDir + f.rel, f.content, present, done.moved) else None
    requires step.Some? ==> image == MovedImage(f.content, present, done.moved)
    ensures step.None? ==> MigrateNext(done, f, present) == done
    ensures step.Some? ==>
              MigrateNext(done, f, present) == Migrated(done.ops + step.value, done.moved + (if image.Some? then {image.value} else {}))
  {
  }

  /** The walk up to file i + 1 is the walk up to file i, followed by file i. */
  lemma MigrateAllNext(files: seq<FoundFile>, present: Path -> bool, i: nat)
    requires i < |files|
    ensures MigrateAll(files[..i + 1], present) == MigrateNext(MigrateAll(files[..i], present), files[i], present)
  {
    assert files[..i + 1][..i] == files[..i];
    assert files[..i + 1][i] == files[i];
  }

  /** The move operations of a list never move the same image twice, and move only images that were there. */
  predicate MovesOnce(ops: seq<FsOp>, present: Path -> bool, moved: set<Path>) {
    && (forall i :: 0 <= i < |ops| && ops[i].MoveFile? ==> ops[i].src in moved && present(ops[i].src))
    && (forall i, j :: 0 <= i < j < |ops| && ops[i].MoveFile? && ops[j].MoveFile? ==> ops[i].src != ops[j].src)
  }

  /** Appending the operations of one more post, which move at most its own, unmoved image, keeps every image moved once. */
  lemma AppendMovesOnce(before: seq<FsOp>, moved: set<Path>, ops: seq<FsOp>, image: Option<Path>, present: Path -> bool)
    requires MovesOnce(before, present, moved)
    requires forall i :: 0 <= i < |ops| && ops[i].MoveFile? ==> i == 0 && image == Some(ops[i].src)
    requires image.Some? ==> image.value !in moved && present(image.value)
    ensures MovesOnce(before + ops, present, moved + (if image.Some? then {image.value} else {}))
  {
    var all := before + ops;
    var n := |before|;
    assert forall i :: 0 <= i < n ==> all[i] == before[i];
    assert forall i :: n <= i < |all| ==> all[i] == ops[i - n];
  }

  /** Every image is moved at most once, and only if it existed. */
  lemma {:induction false} MigrateAllMovesOnce(files: seq<FoundFile>, present: Path -> bool)
    ensures MovesOnce(MigrateAll(files, present).ops, present, MigrateAll(files, present).moved)
    decreases |files|
  {
    if files != [] {
      var init := files[..|files| - 1];
      var done := MigrateAll(init, present);
      MigrateAllMovesOnce(init, present);
      var f := files[|files| - 1];
      var md := BaseDir + f.rel;
      if Globbed(md) && MigrateFile(md, f.content, present, done.moved).Some? {
        var ops := MigrateFile(md, f.content, present, done.moved).value;
        var image := MovedImage(f.content, present, done.moved);
        AppendMovesOnce(done.ops, done.moved, ops, image, present);
      }
    }
  }

  /** Every removal comes right after the write of an `index.md` two levels below the removed file's folder. */
  predicate WritesFirst(ops: seq<FsOp>) {
    forall i :: 0 <= i < |ops| && ops[i].Unlink? ==>
      && i >= 1 && ops[i - 1].WriteText?
      && Parent(Parent(ops[i - 1].path)) == Parent(ops[i].path)
      && Name(ops[i - 1].path) == IndexFile
  }

  lemma AppendWritesFirst(before: seq<FsOp>, ops: seq<FsOp>)
    requires WritesFirst(before) && WritesFirst(ops)
    ensures WritesFirst(before + ops)
  {
    var all := before + ops;
    var n := |before|;
    assert forall i :: 0 <= i < n ==> all[i] == before[i];
    assert forall i :: n <= i < |all| ==> all[i] == ops[i - n];
  }

  /** One post's operations write its bundle before removing it. */
  lemma BundleWritesFirst(md: Path, slug: string, text: string, image: Option<Path>)
    ensures WritesFirst(BundleOps(md, Parent(md) + [slug], text, image))
  {
    var newDir := Parent(md) + [slug];
    assert Parent(newDir + [IndexFile]) == newDir;
  }

  /** The original of every migrated post is removed only after its bundle was written, in the same folder. */
  lemma {:induction false} MigrateAllWritesFirst(files: seq<FoundFile>, present: Path -> bool)
    ensures WritesFirst(MigrateAll(files, present).ops)
    decreases |files|
  {
    if files != [] {
      var init := files[..|files| - 1];
      var done := MigrateAll(init, present);
      MigrateAllWritesFirst(init, present);
      var f := files[|files| - 1];
      var md := BaseDir + f.rel;
      if Globbed(md) && MigrateFile(md, f.content, present, done.moved).Some? {
        var image := MovedImage(f.content, present, done.moved);
        BundleWritesFirst(md, MatchFilename(Name(md)).value.slug, if image.Some? then WithImages(f.content) else f.content, image);
        AppendWritesFirst(done.ops, MigrateFile(md, f.content, present, done.moved).value);
      }
    }
  }

  /** The loop body for one file: skips, the image lookup and move, the frontmatter update, the write, the removal. */
  method MigratePost(md: Path, content: string, present: Path -> bool, moved: set<Path>)
      returns (step: Option<seq<FsOp>>, image: Option<Path>)
    ensures step == MigrateFile(md, content, present, moved)
    ensures step.Some? ==> image == MovedImage(content, present, moved)
  {
    image := None;
    if Name(md) == IndexFile {
      return None, image;
    }
    var m := MatchFilename(Name(md));
    if m.None? {
      return None, image;
    }
    var newDir := Parent(md) + [m.value.slug];
    var newMdPath := newDir + [IndexFile];
    var text := content;
    var ops: seq<FsOp> := [];
    image := LookUpImage(content, present, moved);
    if image.Some? {
      ops := [MoveFile(image.value, newDir + [Header])];
      text := UpdateFrontmatter(text);
    }
    ops := ops + [WriteText(newMdPath, text), Unlink(md)];
    step := Some(ops);
  }

  /** The image lookup of the loop body: the image, when it is there and no earlier post moved it. */
  method LookUpImage(content: string, present: Path -> bool, moved: set<Path>) returns (image: Option<Path>)
    ensures image == MovedImage(content, present, moved)
  {
    image := None;
    var possible := ImageFor(content);
    if possible.Some? {
      if present(possible.value) && possible.value !in moved {
        image := possible;
      }
    }
  }

  /** The frontmatter update of the loop body, splicing the images block in. */
  method UpdateFrontmatter(content: string) returns (text: string)
    ensures text == WithImages(content)
  {
    text := content;
    if !Contains(text, ImagesKey) {
      var insertion := IndexOf(text, Marker, 3);
      if insertion.Some? {
        text := text[..insertion.value] + ImagesBlock + text[insertion.value..];
      }
    }
  }

  /** `migrate_blog_structure`: every `.md` file in walk order. */
  method MigrateBlogStructure(files: seq<FoundFile>, present: Path -> bool) returns (ops: seq<FsOp>)
    ensures ops == MigrateAll(files, present).ops
  {
    ops := [];
    var moved: set<Path> := {};
    var i := 0;
    while i < |files|
      invariant 0 <= i <= |files|
      invariant ops == MigrateAll(files[..i], present).ops
      invariant moved == MigrateAll(files[..i], present).moved
    {
      MigrateAllNext(files, present, i);
      var md := BaseDir + files[i].rel;
      var step: Option<seq<FsOp>> := None;
      var image: Option<Path> := None;
      if Globbed(md) {
        step, image := MigratePost(md, files[i].content, present, moved);
      }
      MigrateNextOf(MigrateAll(files[..i], present), files[i], present, step, image);
      if step.Some? {
        ops := ops + step.value;
        if image.Some? {
          moved := moved + {image.value};
        }
      }
      i := i + 1;
    }
    assert files[..i] == files;
  }
}
