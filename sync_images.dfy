/**
 * The image sync: every page bundle's `header.png` is copied to the public images directory
 * as `<slug>-header.png`, and the post's screenshot field is pointed at its public URL.
 *
 * The screenshot pattern `(screenshot:\s*)(["\']?)(.+?)(["\']?)(\s*\n)` is modelled with
 * Python `re` backtracking, and `pattern.sub` with its left-to-right, non-overlapping scan.
 * The `index.md` files arrive in walk order with their text; whether a bundle has a
 * `header.png` is an oracle. The effects are returned as a list of operations.
 */
module SyncImagesToPublic {
  import opened Wrappers
  import opened Strings
  import opened Paths
  import opened FileOps

  const BlogDir: Path := ["website", "src", "content", "blog"]
  const PublicImagesDir: Path := ["website", "public", "images", "blog"]
  const BaseUrl: string := "/bestof-opensorce/images/blog"
  const Header: string := "header.png"
  const Key: string := "screenshot:"

  /** The last newline in s[lo..hi], if any. */
  function LastNewline(s: string, lo: nat, hi: nat): (r: Option<nat>)
    requires lo <= hi <= |s|
    ensures r.Some? ==> lo <= r.value < hi && s[r.value] == '\n'
    ensures r.Some? ==> forall k :: r.value < k < hi ==> s[k] != '\n'
    ensures r.None? ==> forall k :: lo <= k < hi ==> s[k] != '\n'
    decreases hi - lo
  {
    if hi == lo then None
    else if s[hi - 1] == '\n' then Some(hi - 1)
    else LastNewline(s, lo, hi - 1)
  }

  /**
   * `(\s*\n)` at q: the greedy `\s*` gives back characters until a newline follows, so the
   * group runs to the last newline of the whitespace run from q. The end of the group.
   */
  function NewlineTail(s: string, q: nat): (r: Option<nat>)
    requires q <= |s|
    ensures r.Some? ==> q < r.value <= |s| && s[r.value - 1] == '\n'
    ensures r.Some? ==> forall k :: q <= k < r.value ==> s[k] in Whitespace
    ensures r.None? ==> forall k :: q <= k < SpanEnd(s, q, Whitespace) ==> s[k] != '\n'
  {
    match LastNewline(s, q, SpanEnd(s, q, Whitespace))
    case None => None
    case Some(t) => Some(t + 1)
  }

  /** Where the kept trailing group starts and where the match ends. */
  datatype Tail = Tail(g5: nat, end: nat)

  /** `(["\']?)(\s*\n)` at x: with a quote there, taking it is tried first. */
  function QuoteTail(s: string, x: nat): (r: Option<Tail>)
    requires x <= |s|
    ensures r.Some? ==> x <= r.value.g5 < r.value.end <= |s|
  {
    if x < |s| && s[x] in Quotes && NewlineTail(s, x + 1).Some? then Some(Tail(x + 1, NewlineTail(s, x + 1).value))
    else match NewlineTail(s, x)
      case Some(e) => Some(Tail(x, e))
      case None => None
  }

  /** `(.+?)(["\']?)(\s*\n)` where the lazy group may end at x: tried at x, then one character longer. */
  function LazyFrom(s: string, x: nat): (r: Option<Tail>)
    requires x <= |s|
    ensures r.Some? ==> x <= r.value.g5 < r.value.end <= |s|
    decreases |s| - x
  {
    match QuoteTail(s, x)
    case Some(t) => Some(t)
    case None => if x < |s| && s[x] != '\n' then LazyFrom(s, x + 1) else None
  }

  /** `(.+?)(["\']?)(\s*\n)` with the lazy group starting at g: at least one character, never a newline. */
  function Lazy(s: string, g: nat): (r: Option<Tail>)
    requires g <= |s|
    ensures r.Some? ==> g < r.value.g5 < r.value.end <= |s|
  {
    if g < |s| && s[g] != '\n' then LazyFrom(s, g + 1) else None
  }

  /** `(["\']?)(.+?)(["\']?)(\s*\n)` at p: with a quote there, taking it is tried first. */
  function AfterSpace(s: string, p: nat): (r: Option<Tail>)
    requires p <= |s|
    ensures r.Some? ==> p < r.value.g5 < r.value.end <= |s|
  {
    if p < |s| && s[p] in Quotes && Lazy(s, p + 1).Some? then Lazy(s, p + 1) else Lazy(s, p)
  }

  /** A match: its start, the end of the kept first group, and the kept last group. */
  datatype Match = Match(start: nat, g1: nat, g5: nat, end: nat)

  /** `\s*` of the first group, from a: the longest run w first, then shorter ones. */
  function SpaceBacktrack(s: string, i: nat, a: nat, w: nat): (r: Option<Match>)
    requires i <= a <= w <= |s|
    ensures r.Some? ==> r.value.start == i && a <= r.value.g1 <= w && r.value.g1 < r.value.g5 < r.value.end <= |s|
    decreases w - a
  {
    match AfterSpace(s, w)
    case Some(t) => Some(Match(i, w, t.g5, t.end))
    case None => if w == a then None else SpaceBacktrack(s, i, a, w - 1)
  }

  /** The match of the screenshot pattern that starts at i, if any. */
  function MatchAt(s: string, i: nat): (r: Option<Match>)
    requires i <= |s|
    ensures r.Some? ==> OccursAt(s, Key, i)
    ensures r.Some? ==> r.value.start == i && i + |Key| <= r.value.g1 < r.value.g5 < r.value.end <= |s|
  {
    if OccursAt(s, Key, i) then
      var a := i + |Key|;
      SpaceBacktrack(s, i, a, SpanEnd(s, a, Whitespace))
    else None
  }

  /** `pattern.search(s, from)`: the leftmost match starting at or after `from`. */
  function FindMatch(s: string, from: nat): (r: Option<Match>)
    requires from <= |s|
    ensures r.Some? ==> from <= r.value.start <= |s| && MatchAt(s, r.value.start) == r
    ensures r.Some? ==> forall k :: from <= k < r.value.start ==> MatchAt(s, k).None?
    ensures r.None? ==> forall k :: from <= k <= |s| ==> MatchAt(s, k).None?
    decreases |s| - from
  {
    if MatchAt(s, from).Some? then MatchAt(s, from)
    else if from == |s| then None
    else FindMatch(s, from + 1)
  }

  /** The value of a screenshot line in its rewritten form. */
  function Quoted(public: string): string {
    "\"" + public + "\""
  }

  /** The replacement `\1"<public>"\5` for one match. */
  function Replacement(s: string, m: Match, public: string): string
    requires m.start <= m.g1 <= m.g5 <= m.end <= |s|
  {
    s[m.start..m.g1] + Quoted(public) + s[m.g5..m.end]
  }

  /** `pattern.sub(...)` from index pos: each match replaced, the scan going on after it. */
  function SubFrom(s: string, pos: nat, public: string): (r: string)
    requires pos <= |s|
    ensures FindMatch(s, pos).None? ==> r == s[pos..]
    decreases |s| - pos
  {
    match FindMatch(s, pos)
    case None => s[pos..]
    case Some(m) => s[pos..m.start] + Replacement(s, m, public) + SubFrom(s, m.end, public)
  }

  /** `pattern.sub(f'\\1"{public_path}"\\5', content)` */
  function Rewrite(s: string, public: string): string {
    SubFrom(s, 0, public)
  }

  /** `pattern.search(content)` */
  predicate HasField(s: string) {
    FindMatch(s, 0).Some?
  }

  /** Text without "screenshot:" has no field and is left as it is. */
  lemma NoKeyNoField(s: string, public: string)
    requires !Contains(s, Key)
    ensures !HasField(s) && Rewrite(s, public) == s
  {
  }

  /** "screenshot:" has no border: no proper suffix of it is a prefix, since ':' is only last. */
  lemma KeyNoBorder(c: string, i: nat)
    requires i <= |c| && !Contains(c[..i], Key) && OccursAt(c, Key, i)
    ensures forall j: nat :: j < i ==> !OccursAt(c, Key, j)
  {
    assert forall k :: 0 <= k < 10 ==> Key[k] != ':';
    assert |Key| == 11 && Key[10] == ':';
    forall j: nat | j < i ensures !OccursAt(c, Key, j) {
      if j + 11 <= |c| {
        if j + 11 <= i {
          assert c[..i][j..j + 11] == c[j..j + 11];
          assert !OccursAt(c[..i], Key, j);
        } else {
          var d := j + 10 - i;
          assert 0 <= d < 10 && c[i..i + 11] == Key;
          assert c[j + 10] == c[i..i + 11][d];
          assert c[j..j + 11][10] == c[j + 10] != ':';
        }
      }
    }
  }

  /** Within a stretch of non-newline characters whose last is not whitespace, no `\s*\n` can start. */
  lemma NoTailInside(s: string, y: nat, v: nat)
    requires y < v <= |s| && s[v - 1] !in Whitespace
    requires forall k :: y <= k < v ==> s[k] != '\n'
    ensures NewlineTail(s, y).None?
  {
    var e := SpanEnd(s, y, Whitespace);
    assert e < v;
  }

  /**
   * With the value v = s[..V] ending before a newline whose whitespace run ends at E, the lazy
   * group from any x up to V stops at V (or takes a closing quote just before it).
   */
  lemma {:induction false} LazyReaches(s: string, x: nat, v: nat, e: nat)
    requires 0 < x <= v < |s| && s[v] == '\n' && s[v - 1] !in Whitespace
    requires forall k :: x - 1 <= k < v ==> s[k] != '\n'
    requires NewlineTail(s, v) == Some(e)
    ensures LazyFrom(s, x) == Some(Tail(v, e))
    decreases v - x
  {
    if x < v {
      if x + 1 < v {
        NoTailInside(s, x + 1, v);
      }
      NoTailInside(s, x, v);
      if x + 1 < v {
        LazyReaches(s, x + 1, v, e);
      } else {
        assert QuoteTail(s, x).None? ==> LazyFrom(s, x) == LazyFrom(s, x + 1);
      }
    }
  }

  /** The optional quote, the lazy value and the closing group, for a one-line value s[w..v] followed by a newline. */
  lemma ValueTail(s: string, w: nat, v: nat, e: nat)
    requires w < v < |s| && s[v] == '\n' && s[v - 1] !in Whitespace
    requires forall k :: w <= k < v ==> s[k] != '\n'
    requires NewlineTail(s, v) == Some(e)
    ensures AfterSpace(s, w) == Some(Tail(v, e))
  {
    LazyReaches(s, w + 1, v, e);
    LazyStart(s, w);
    if w + 2 <= v {
      LazyReaches(s, w + 2, v, e);
      LazyStart(s, w + 1);
    } else {
      LazyAtNewline(s, w + 1);
    }
    AfterSpaceEither(s, w, Some(Tail(v, e)));
  }

  /** A lazy group starting on a character other than a newline goes on from the next position. */
  lemma LazyStart(s: string, g: nat)
    requires g < |s| && s[g] != '\n'
    ensures Lazy(s, g) == LazyFrom(s, g + 1)
  {
  }

  /** A lazy group cannot start on a newline. */
  lemma LazyAtNewline(s: string, g: nat)
    requires g < |s| && s[g] == '\n'
    ensures Lazy(s, g).None?
  {
  }

  /** Whether or not a quote is taken first, the same tail is found when both tries give it (or the quoted one fails). */
  lemma AfterSpaceEither(s: string, p: nat, t: Option<Tail>)
    requires p < |s| && Lazy(s, p) == t
    requires Lazy(s, p + 1) == t || Lazy(s, p + 1).None?
    ensures AfterSpace(s, p) == t
  {
  }

  /** `pattern.search` from `from` finds the first position with a match. */
  lemma {:induction false} FindMatchFirst(s: string, from: nat, i: nat)
    requires from <= i <= |s| && MatchAt(s, i).Some?
    requires forall k :: from <= k < i ==> MatchAt(s, k).None?
    ensures FindMatch(s, from) == MatchAt(s, i)
    decreases i - from
  {
    if from < i {
      FindMatchFirst(s, from + 1, i);
    }
  }

  /** No "screenshot:" at or after `from` means no further match. */
  lemma NoKeyAfter(s: string, from: nat)
    requires from <= |s|
    requires forall k: nat :: from <= k ==> !OccursAt(s, Key, k)
    ensures FindMatch(s, from).None?
  {
  }

  /** A suffix without "screenshot:" has none at or after its start. */
  lemma KeyNotInSuffix(c: string, from: nat)
    requires from <= |c| && !Contains(c[from..], Key)
    ensures forall k: nat :: from <= k ==> !OccursAt(c, Key, k)
  {
    forall k: nat | from <= k && k + |Key| <= |c| ensures !OccursAt(c, Key, k) {
      var j := k - from;
      assert c[k..k + |Key|] == c[from..][j..j + |Key|];
      assert !OccursAt(c[from..], Key, j);
    }
  }

  /** A key at i, a whitespace run to w and a one-line value from w to a newline at vEnd: the match spans that line. */
  lemma LineMatch(c: string, i: nat, w: nat, vEnd: nat)
    requires i + |Key| <= w < vEnd < |c| && OccursAt(c, Key, i)
    requires forall k :: i + |Key| <= k < w ==> c[k] in Whitespace
    requires c[w] !in Whitespace && c[vEnd - 1] !in Whitespace && c[vEnd] == '\n'
    requires forall k :: w <= k < vEnd ==> c[k] != '\n'
    ensures NewlineTail(c, vEnd).Some?
    ensures MatchAt(c, i) == Some(Match(i, w, vEnd, NewlineTail(c, vEnd).value))
  {
    assert SpanEnd(c, i + |Key|, Whitespace) == w;
    assert LastNewline(c, vEnd, SpanEnd(c, vEnd, Whitespace)).Some?;
    ValueTail(c, w, vEnd, NewlineTail(c, vEnd).value);
  }

  /** With one match in the text, `sub` replaces just its value groups. */
  lemma RewriteOne(c: string, m: Match, public: string)
    requires FindMatch(c, 0) == Some(m) && FindMatch(c, m.end).None?
    ensures Rewrite(c, public) == c[..m.g1] + Quoted(public) + c[m.g5..]
  {
    assert m.start <= m.g1 <= m.g5 <= m.end <= |c|;
    assert SubFrom(c, m.end, public) == c[m.end..];
    assert Rewrite(c, public) == c[..m.start] + Replacement(c, m, public) + c[m.end..] by {
      assert Rewrite(c, public) == c[0..m.start] + Replacement(c, m, public) + SubFrom(c, m.end, public);
    }
    SpliceAround(c, m.start, m.g1, m.g5, m.end, Quoted(public));
  }

  /** Replacing c[j..k] by q inside the window c[i..l] is replacing it in the whole of c. */
  lemma SpliceAround(c: string, i: nat, j: nat, k: nat, l: nat, q: string)
    requires i <= j <= k <= l <= |c|
    ensures c[..i] + (c[i..j] + q + c[k..l]) + c[l..] == c[..j] + q + c[k..]
  {
    assert c[..j] == c[..i] + c[i..j];
    assert c[k..] == c[k..l] + c[l..];
  }

  /**
   * The first "screenshot:" at i, its whitespace run to w and a one-line value from w to a newline
   * at vEnd, with no "screenshot:" after that line: the value is replaced, the rest is kept.
   */
  lemma RewriteLine(c: string, i: nat, w: nat, vEnd: nat, public: string)
    requires i + |Key| <= w < vEnd < |c| && OccursAt(c, Key, i)
    requires !Contains(c[..i], Key) && !Contains(c[vEnd + 1..], Key)
    requires forall k :: i + |Key| <= k < w ==> c[k] in Whitespace
    requires c[w] !in Whitespace && c[vEnd - 1] !in Whitespace && c[vEnd] == '\n'
    requires forall k :: w <= k < vEnd ==> c[k] != '\n'
    ensures HasField(c) && Rewrite(c, public) == c[..w] + Quoted(public) + c[vEnd..]
  {
    LineMatch(c, i, w, vEnd);
    var m := MatchAt(c, i).value;
    assert m == Match(i, w, vEnd, NewlineTail(c, vEnd).value) && vEnd < m.end;
    KeyNoBorder(c, i);
    forall k | 0 <= k < i ensures MatchAt(c, k).None? {
      assert !OccursAt(c, Key, k);
    }
    FindMatchFirst(c, 0, i);
    assert FindMatch(c, 0) == Some(m);
    KeyNotInSuffix(c, vEnd + 1);
    NoKeyAfter(c, m.end);
    RewriteOne(c, m, public);
  }

  /**
   * The only screenshot line, `screenshot:<ws><value>` with the value on one line and no
   * whitespace at its ends, keeps its key and spacing, gets the quoted public path as its value,
   * and everything else is left as it is.
   */
  lemma ScreenshotRewritten(pre: string, ws: string, v: string, post: string, public: string)
    requires !Contains(pre, Key) && !Contains(post, Key)
    requires forall k :: 0 <= k < |ws| ==> ws[k] in Whitespace
    requires v != [] && v[0] !in Whitespace && v[|v| - 1] !in Whitespace && '\n' !in v
    ensures HasField(pre + Key + ws + v + ['\n'] + post)
    ensures Rewrite(pre + Key + ws + v + ['\n'] + post, public) == pre + Key + ws + Quoted(public) + ['\n'] + post
  {
    var c := pre + Key + ws + v + ['\n'] + post;
    var i := |pre|;
    var w := i + |Key| + |ws|;
    var vEnd := w + |v|;
    LayoutKey(pre, Key, ws, v, post);
    LayoutSpace(pre, Key, ws, v, post);
    LayoutValue(pre, Key, ws, v, post);
    LayoutNewline(pre, Key, ws, v, post);
    assert c[w] == v[0] && c[vEnd - 1] == v[|v| - 1];
    RewriteLine(c, i, w, vEnd, public);
    var front, q, nl := pre + Key + ws, Quoted(public), ['\n'];
    assert c[..w] == front && c[vEnd..] == nl + post;
    assert Rewrite(c, public) == front + q + (nl + post);
    Reassoc(front, q, nl, post);
  }

  /** Where the parts of a screenshot line sit in the text. */
  /** In pre + key + ws + v + "\n" + post, the key follows pre. */
  lemma LayoutKey(pre: string, key: string, ws: string, v: string, post: string)
    ensures var c := pre + key + ws + v + ['\n'] + post;
            c[..|pre|] == pre && OccursAt(c, key, |pre|)
  {
    Regroup6(pre, key, ws, v, ['\n'], post);
    PartAt(pre, key, ws + v + ['\n'] + post);
  }

  /** In pre + key + ws + v + "\n" + post, the whitespace run follows the key. */
  lemma LayoutSpace(pre: string, key: string, ws: string, v: string, post: string)
    ensures var c := pre + key + ws + v + ['\n'] + post;
            var i := |pre| + |key|;
            forall k :: i <= k < i + |ws| ==> c[k] == ws[k - i]
  {
    var c := pre + key + ws + v + ['\n'] + post;
    var i := |pre| + |key|;
    Regroup6(pre, key, ws, v, ['\n'], post);
    PartAt(pre + key, ws, v + ['\n'] + post);
    forall k | i <= k < i + |ws| ensures c[k] == ws[k - i] {
      assert c[k] == c[i..i + |ws|][k - i];
    }
  }

  /** In pre + key + ws + v + "\n" + post, the value follows the whitespace run and ends at the newline. */
  lemma LayoutValue(pre: string, key: string, ws: string, v: string, post: string)
    ensures var c := pre + key + ws + v + ['\n'] + post;
            var w := |pre| + |key| + |ws|;
            && (forall k :: w <= k < w + |v| ==> c[k] == v[k - w])
            && c[..w] == pre + key + ws && c[w + |v|..] == ['\n'] + post
  {
    var c := pre + key + ws + v + ['\n'] + post;
    var w := |pre| + |key| + |ws|;
    Regroup6(pre, key, ws, v, ['\n'], post);
    PartAt(pre + key + ws, v, ['\n'] + post);
    forall k | w <= k < w + |v| ensures c[k] == v[k - w] {
      assert c[k] == c[w..w + |v|][k - w];
    }
  }

  /** In pre + key + ws + v + "\n" + post, the newline is followed by post. */
  lemma LayoutNewline(pre: string, key: string, ws: string, v: string, post: string)
    ensures var c := pre + key + ws + v + ['\n'] + post;
            var vEnd := |pre| + |key| + |ws| + |v|;
            vEnd < |c| && c[vEnd] == '\n' && c[vEnd + 1..] == post
  {
    var c := pre + key + ws + v + ['\n'] + post;
    PartAt(pre + key + ws + v, ['\n'], post);
    assert c[|pre| + |key| + |ws| + |v|] == c[|pre| + |key| + |ws| + |v|..|c| - |post|][0];
  }

  /** The groupings of a six-part concatenation that the layout proof uses. */
  lemma Regroup6(a: string, b: string, c: string, d: string, e: string, f: string)
    ensures a + b + c + d + e + f == a + b + (c + d + e + f)
    ensures a + b + c + d + e + f == (a + b) + c + (d + e + f)
    ensures a + b + c + d + e + f == (a + b + c) + d + (e + f)
  {
  }

  lemma Reassoc(x: string, q: string, y: string, z: string)
    ensures x + q + (y + z) == x + q + y + z
  {
  }

  /** A quoted one-line path is itself a one-line value with no whitespace at its ends. */
  lemma QuotedShape(public: string)
    requires '\n' !in public
    ensures var q := Quoted(public);
            q != [] && q[0] !in Whitespace && q[|q| - 1] !in Whitespace && '\n' !in q
  {
    var q := Quoted(public);
    assert q[0] == '"' && q[|q| - 1] == '"';
    forall k | 0 <= k < |q| ensures q[k] != '\n' {
      if 0 < k < |q| - 1 {
        assert q[k] == public[k - 1];
      }
    }
  }

  /** A line already pointing at the public path is rewritten to itself, so the file is not written again. */
  lemma RewriteIdempotent(pre: string, ws: string, v: string, post: string, public: string)
    requires !Contains(pre, Key) && !Contains(post, Key)
    requires forall k :: 0 <= k < |ws| ==> ws[k] in Whitespace
    requires v != [] && v[0] !in Whitespace && v[|v| - 1] !in Whitespace && '\n' !in v
    requires '\n' !in public
    ensures var once := Rewrite(pre + Key + ws + v + ['\n'] + post, public);
            Rewrite(once, public) == once
  {
    ScreenshotRewritten(pre, ws, v, post, public);
    QuotedShape(public);
    ScreenshotRewritten(pre, ws, Quoted(public), post, public);
  }

  const HeaderSuffix: string := "-" + Header

  /** The public copy of a bundle's header image: `<slug>-header.png` in the public images directory. */
  function PublicCopy(slug: string): (r: Path)
    ensures Parent(r) == PublicImagesDir && Name(r) == slug + HeaderSuffix
  {
    PublicImagesDir + [slug + HeaderSuffix]
  }

  /** `f"{base_url}/{dest_filename}"`, the URL the screenshot field is pointed at. */
  function PublicUrl(slug: string): string {
    BaseUrl + "/" + slug + HeaderSuffix
  }

  /**
   * The effects of one file of the walk: nothing unless it is an `index.md` whose folder has a
   * `header.png`; then the copy of the image, and the rewritten text when the screenshot field
   * is there and the rewrite changes the text.
   */
  function SyncFile(f: FoundFile, present: Path -> bool): (r: seq<FsOp>)
    ensures var md := BlogDir + f.rel;
            r != [] <==> Name(md) == IndexFile && present(Parent(md) + [Header])
    ensures var md := BlogDir + f.rel;
            r != [] ==> r[0] == CopyFile(Parent(md) + [Header], PublicCopy(Name(Parent(md))))
    ensures var md := BlogDir + f.rel;
            var text := Rewrite(f.content, PublicUrl(Name(Parent(md))));
            |r| <= 2 && (|r| == 2 <==> r != [] && HasField(f.content) && text != f.content)
            && (|r| == 2 ==> r[1] == WriteText(md, text))
  {
    var md := BlogDir + f.rel;
    var src := Parent(md) + [Header];
    if Name(md) != IndexFile || !present(src) then []
    else
      var slug := Name(Parent(md));
      var copy := CopyFile(src, PublicCopy(slug));
      var text := Rewrite(f.content, PublicUrl(slug));
      if HasField(f.content) && text != f.content then [copy, WriteText(md, text)] else [copy]
  }

  /** The effects of the loop of `sync_images` over the files found, in walk order. */
  function SyncAll(files: seq<FoundFile>, present: Path -> bool): seq<FsOp>
    decreases |files|
  {
    if files == [] then []
    else SyncAll(files[..|files| - 1], present) + SyncFile(files[|files| - 1], present)
  }

  /** The body of the loop of `sync_images` for one file. */
  method SyncOne(f: FoundFile, present: Path -> bool) returns (ops: seq<FsOp>)
    ensures ops == SyncFile(f, present)
  {
    ops := [];
    var md := BlogDir + f.rel;
    if Name(md) != IndexFile {
      return;
    }
    var slug := Name(Parent(md));
    var src := Parent(md) + [Header];
    if present(src) {
      var dest := PublicCopy(slug);
      ops := ops + [CopyFile(src, dest)];
      var publicPath := PublicUrl(slug);
      var content := f.content;
      if HasField(content) {
        var newContent := Rewrite(content, publicPath);
        if newContent != content {
          ops := ops + [WriteText(md, newContent)];
        }
      }
    }
  }

  /** `sync_images`: every `index.md` below the blog directory, in walk order. */
  method SyncImages(files: seq<FoundFile>, present: Path -> bool) returns (ops: seq<FsOp>)
    ensures ops == SyncAll(files, present)
  {
    ops := [];
    var i := 0;
    while i < |files|
      invariant 0 <= i <= |files|
      invariant ops == SyncAll(files[..i], present)
    {
      assert files[..i + 1][..i] == files[..i];
      var step := SyncOne(files[i], present);
      ops := ops + step;
      i := i + 1;
    }
    assert files[..i] == files;
  }

  /** What the sync may do: copy a bundle's header image into the public directory, or rewrite an `index.md`. */
  predicate Allowed(op: FsOp) {
    || (op.CopyFile? && Name(op.src) == Header && Parent(op.dst) == PublicImagesDir)
    || (op.WriteText? && Name(op.path) == IndexFile)
  }

  lemma SyncFileAllowed(f: FoundFile, present: Path -> bool)
    ensures forall k :: 0 <= k < |SyncFile(f, present)| ==> Allowed(SyncFile(f, present)[k])
  {
  }

  /** The sync never deletes or moves anything, writes only `index.md` files, and copies only into the public images directory. */
  lemma {:induction false} SyncAllAllowed(files: seq<FoundFile>, present: Path -> bool)
    ensures forall k :: 0 <= k < |SyncAll(files, present)| ==> Allowed(SyncAll(files, present)[k])
    decreases |files|
  {
    if files != [] {
      var init := files[..|files| - 1];
      SyncAllAllowed(init, present);
      SyncFileAllowed(files[|files| - 1], present);
    }
  }

  /**
   * A bundle `<category>/<slug>/index.md` with a `header.png` and one screenshot line: its image
   * is copied to `<slug>-header.png`, and the line is pointed at that public URL unless it already is.
   */
  lemma SyncBundle(category: string, slug: string, pre: string, ws: string, v: string, post: string, present: Path -> bool)
    requires present(BlogDir + [category, slug, Header])
    requires !Contains(pre, Key) && !Contains(post, Key)
    requires forall k :: 0 <= k < |ws| ==> ws[k] in Whitespace
    requires v != [] && v[0] !in Whitespace && v[|v| - 1] !in Whitespace && '\n' !in v
    ensures var md := BlogDir + [category, slug, IndexFile];
            var content := pre + Key + ws + v + ['\n'] + post;
            var copy := CopyFile(BlogDir + [category, slug, Header], PublicCopy(slug));
            var text := pre + Key + ws + Quoted(PublicUrl(slug)) + ['\n'] + post;
            SyncFile(FoundFile([category, slug, IndexFile], content), present) ==
              if v == Quoted(PublicUrl(slug)) then [copy] else [copy, WriteText(md, text)]
  {
    var md := BlogDir + [category, slug, IndexFile];
    assert Parent(md) == BlogDir + [category, slug];
    assert Parent(md) + [Header] == BlogDir + [category, slug, Header];
    ScreenshotRewritten(pre, ws, v, post, PublicUrl(slug));
    var text := pre + Key + ws + Quoted(PublicUrl(slug)) + ['\n'] + post;
    if v != Quoted(PublicUrl(slug)) {
      Reassoc(pre + Key + ws, v, ['\n'], post);
      Reassoc(pre + Key + ws, Quoted(PublicUrl(slug)), ['\n'], post);
      PartsDiffer(pre + Key + ws, v, Quoted(PublicUrl(slug)), ['\n'] + post);
    }
  }

  /** Texts that differ only in their middle parts differ. */
  lemma PartsDiffer(x: string, v: string, q: string, z: string)
    requires v != q
    ensures x + v + z != x + q + z
  {
    if |v| == |q| {
      var k :| 0 <= k < |v| && v[k] != q[k];
      assert (x + v + z)[|x| + k] == v[k] && (x + q + z)[|x| + k] == q[k];
    }
  }
}
