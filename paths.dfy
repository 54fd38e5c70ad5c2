/**
 * pathlib paths as sequences of components: `Path("a/b") / "c"` is ["a", "b", "c"]
 * and `str(p)` joins the components with "/". Where a path is built from a string that may
 * hold any text, `JoinPath` gives pathlib's POSIX reading of it: empty and "." components are
 * dropped, and an absolute right operand replaces the left one.
 */
module Paths {
  import opened Strings

  type Path = seq<string>

  /** `p.name`: the last component, "" for the empty path. */
  function Name(p: Path): string {
    if p == [] then "" else p[|p| - 1]
  }

  /** `p.parent`; the parent of the empty path is the empty path. */
  function Parent(p: Path): (r: Path)
    ensures p != [] ==> r + [Name(p)] == p
  {
    if p == [] then [] else p[..|p| - 1]
  }

  /** `str(p)` */
  function ToString(p: Path): string {
    Join("/", p)
  }

  /** The file `c` in the folder `dir/a/b`: its name is `c` and its parent that folder. */
  lemma FileInFolder(dir: Path, a: string, b: string, c: string)
    ensures Name(dir + [a, b, c]) == c && Parent(dir + [a, b, c]) == dir + [a, b]
  {
    assert (dir + [a, b, c])[..|dir| + 2] == dir + [a, b];
  }

  /** A component pathlib keeps: non-empty, not ".", and free of the separator. */
  predicate Component(x: string) {
    x != "" && x != "." && '/' !in x
  }

  /** The pieces of a split that pathlib keeps, in order. */
  function Kept(pieces: seq<string>): seq<string> {
    if pieces == [] then []
    else if pieces[0] == "" || pieces[0] == "." then Kept(pieces[1..])
    else [pieces[0]] + Kept(pieces[1..])
  }

  /** What is kept comes from the pieces and is neither empty nor ".". */
  lemma {:induction false} KeptFrom(pieces: seq<string>)
    ensures forall x :: x in Kept(pieces) ==> x in pieces && x != "" && x != "."
  {
    if pieces != [] {
      KeptFrom(pieces[1..]);
    }
  }

  /** A piece as a component list: dropped when empty or ".". */
  function Keep(piece: string): seq<string> {
    if piece == "" || piece == "." then [] else [piece]
  }

  /** The components of `PurePosixPath(s)`: the pieces between '/' that pathlib keeps. */
  function Parts(s: string): seq<string> {
    Scan(s, "")
  }

  /** The kept pieces of `s`, the first of which continues the piece `cur` read so far. */
  function Scan(s: string, cur: string): seq<string>
    decreases |s|
  {
    if s == [] then Keep(cur)
    else if s[0] == '/' then Keep(cur) + Scan(s[1..], "")
    else Scan(s[1..], cur + [s[0]])
  }

  /** The components are the kept pieces of the split. */
  lemma PartsSplit(s: string)
    ensures Parts(s) == Kept(Split(s, '/'))
  {
    ScanSplit(s, "");
    assert "" + s == s;
  }

  /** Scanning from a piece read so far keeps the pieces of the split of that piece and the rest. */
  lemma {:induction false} ScanSplit(s: string, cur: string)
    requires '/' !in cur
    ensures Scan(s, cur) == Kept(Split(cur + s, '/'))
    decreases |s|
  {
    if s == [] {
      assert cur + s == cur;
      NoSeparatorSplit(cur);
      assert Kept([cur]) == Keep(cur) + Kept([cur][1..]);
    } else if s[0] == '/' {
      var rest := s[1..];
      ScanSplit(rest, "");
      assert "" + rest == rest;
      assert cur + s == cur + ['/'] + rest;
      FirstSeparator(cur, rest, '/');
      var whole := cur + ['/'] + rest;
      assert whole[..|cur|] == cur && whole[|cur| + 1..] == rest;
      var pieces := Split(whole, '/');
      assert pieces == [cur] + Split(rest, '/');
      assert pieces[0] == cur && pieces[1..] == Split(rest, '/');
    } else {
      ScanSplit(s[1..], cur + [s[0]]);
      assert cur + s == cur + [s[0]] + s[1..];
    }
  }

  /** Every component of a path string is one pathlib keeps. */
  lemma PartsAreComponents(s: string)
    ensures forall i :: 0 <= i < |Parts(s)| ==> Component(Parts(s)[i])
  {
    var r := Parts(s);
    PartsSplit(s);
    KeptFrom(Split(s, '/'));
    forall i | 0 <= i < |r| ensures Component(r[i]) {
      assert r[i] in r;
    }
  }

  /** The root of `PurePosixPath(s)`: exactly two leading slashes are kept, one or three and more become one. */
  function Root(s: string): (r: string)
    ensures r == "" || r == "/" || r == "//"
    ensures r == "" <==> s == [] || s[0] != '/'
    ensures r == "//" <==> |s| >= 2 && s[0] == '/' && s[1] == '/' && (|s| == 2 || s[2] != '/')
    ensures r == "/" <==> |s| >= 1 && s[0] == '/' && (|s| == 1 || s[1] != '/' || (|s| >= 3 && s[2] == '/'))
  {
    if |s| >= 2 && s[0] == '/' && s[1] == '/' && (|s| == 2 || s[2] != '/') then "//"
    else if |s| >= 1 && s[0] == '/' then "/"
    else ""
  }

  /** `str` of a path with the given root and components; "." when both are empty. */
  function Render(root: string, parts: seq<string>): string {
    if root + Join("/", parts) == "" then "." else root + Join("/", parts)
  }

  /** A path string that starts at the root. */
  predicate Absolute(s: string) {
    |s| > 0 && s[0] == '/'
  }

  /** `str(Path(dir) / name)`: an absolute name replaces the directory; otherwise the components are appended. */
  function JoinPath(dir: string, name: string): string {
    if Absolute(name) then Render(Root(name), Parts(name))
    else Render(Root(dir), Parts(dir) + Parts(name))
  }

  /** A directory string already in pathlib's normal form, other than "." and a bare root. */
  predicate NormalDir(dir: string) {
    Parts(dir) != [] && Root(dir) + Join("/", Parts(dir)) == dir
  }

  /** A relative name every piece of which pathlib keeps: no leading, trailing or doubled '/', and no "." piece. */
  predicate PlainName(name: string) {
    Parts(name) == Split(name, '/')
  }

  /** For a normal directory and a plain name, joining is putting a '/' between them. */
  lemma JoinPlain(dir: string, name: string)
    requires NormalDir(dir) && PlainName(name)
    ensures JoinPath(dir, name) == dir + "/" + name
  {
    PlainRelative(name);
    var a, b := Parts(dir), Parts(name);
    JoinAppend(a, b);
    assert Join("/", b) == name by { JoinSplit(name, '/'); }
    assert JoinPath(dir, name) == Render(Root(dir), a + b);
    assert Root(dir) + Join("/", a + b) == dir + "/" + name;
  }

  /** A plain name is not empty and does not start at the root. */
  lemma PlainRelative(name: string)
    requires PlainName(name)
    ensures name != [] && !Absolute(name) && Parts(name) != []
  {
    var pieces := Split(name, '/');
    PartsSplit(name);
    KeptFrom(pieces);
    assert pieces[0] in Kept(pieces);
    SlashFirstPiece(name);
    NoSeparatorSplit("");
  }

  /**
   * The components of a joined path: those of an absolute name alone, otherwise those of the
   * directory followed by those of the name.
   */
  lemma JoinParts(dir: string, name: string)
    ensures Parts(JoinPath(dir, name)) == if Absolute(name) then Parts(name) else Parts(dir) + Parts(name)
  {
    PartsAreComponents(dir);
    PartsAreComponents(name);
    if Absolute(name) {
      RenderParts(Root(name), Parts(name));
    } else {
      RenderParts(Root(dir), Parts(dir) + Parts(name));
    }
  }

  /** Reading back a rendered path gives its components. */
  lemma RenderParts(root: string, parts: seq<string>)
    requires root == "" || root == "/" || root == "//"
    requires forall i :: 0 <= i < |parts| ==> Component(parts[i])
    ensures Parts(Render(root, parts)) == parts
  {
    if parts == [] {
      RenderNoParts(root);
    } else {
      PartsSplit(Render(root, parts));
      var body := Join("/", parts);
      assert parts[0] != "";
      JoinStarts(parts);
      SplitJoin(parts, '/');
      KeptComponents(parts);
      assert Render(root, parts) == root + body;
      RootedParts(root, body, parts);
    }
  }

  /** A bare root, or ".", has no components. */
  lemma RenderNoParts(root: string)
    requires root == "" || root == "/" || root == "//"
    ensures Parts(Render(root, [])) == []
  {
    PartsSplit(Render(root, []));
    if root == "" {
      assert Render(root, []) == ".";
      NoSeparatorSplit(".");
    } else {
      assert Render(root, []) == root;
      NoSeparatorSplit("");
      SplitLeadingSlash("");
      if root == "//" {
        SplitLeadingSlash("/");
        assert "//" == "/" + "/";
        var pieces := Split(root, '/');
        assert pieces == ["", "", ""];
        assert pieces[1..] == ["", ""] && pieces[1..][1..] == [""];
        assert Kept(pieces) == Kept(pieces[1..]) == Kept(pieces[1..][1..]) == [];
      }
    }
  }

  /** A root before a text adds only empty pieces to its split, which are dropped. */
  lemma RootedParts(root: string, body: string, parts: seq<string>)
    requires root == "" || root == "/" || root == "//"
    requires Split(body, '/') == parts && Kept(parts) == parts
    ensures Kept(Split(root + body, '/')) == parts
  {
    if root == "" {
      assert root + body == body;
    } else if root == "/" {
      SplitLeadingSlash(body);
      var pieces := Split(root + body, '/');
      assert pieces == [""] + parts;
      assert pieces[1..] == parts;
    } else {
      SplitLeadingSlash(body);
      SplitLeadingSlash("/" + body);
      assert root + body == "/" + ("/" + body);
      var pieces := Split(root + body, '/');
      assert pieces == [""] + ([""] + parts);
      assert pieces[1..] == [""] + parts && pieces[1..][1..] == parts;
      assert Kept(pieces) == Kept(pieces[1..]) == Kept(parts);
    }
  }

  /** A leading '/' splits off an empty piece. */
  lemma SplitLeadingSlash(x: string)
    ensures Split("/" + x, '/') == [""] + Split(x, '/')
  {
    var s := "/" + x;
    assert OccursAt(s, ['/'], 0);
    assert s[1..] == x;
  }

  /** A text that starts with '/' splits into an empty piece first. */
  lemma SlashFirstPiece(x: string)
    ensures |x| > 0 && x[0] == '/' ==> Split(x, '/')[0] == ""
  {
    if |x| > 0 && x[0] == '/' {
      SplitLeadingSlash(x[1..]);
      assert x == "/" + x[1..];
    }
  }

  /** Text without the separator splits into itself. */
  lemma NoSeparatorSplit(x: string)
    requires '/' !in x
    ensures Split(x, '/') == [x]
  {
    NoSeparatorIndex(x, '/');
  }

  /** Components are all kept. */
  lemma {:induction false} KeptComponents(parts: seq<string>)
    requires forall i :: 0 <= i < |parts| ==> Component(parts[i])
    ensures Kept(parts) == parts
  {
    if parts != [] {
      KeptComponents(parts[1..]);
    }
  }

  /** The join of components begins with the first one, so it is not empty. */
  lemma JoinStarts(parts: seq<string>)
    requires parts != []
    ensures |Join("/", parts)| >= |parts[0]|
  {
  }

  /** Joining two non-empty lists is joining each and putting the separator between. */
  lemma {:induction false} JoinAppend(a: seq<string>, b: seq<string>)
    requires a != [] && b != []
    ensures Join("/", a + b) == Join("/", a) + "/" + Join("/", b)
  {
    if |a| == 1 {
      assert (a + b)[1..] == b;
    } else {
      assert (a + b)[1..] == a[1..] + b;
      JoinAppend(a[1..], b);
    }
  }
}
