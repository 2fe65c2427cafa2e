/**
 * The file system as export and import see it: a directory tree is the list
 * of its files (path and text) in the order they were created, a zip archive
 * the list of its members (name and text) in the order they were written.
 * Paths are POSIX paths; `PurePosixPath`'s `name`, `parent`, `stem` and
 * `suffix` are spelled out on strings.
 */
module Files {
  import opened Wrappers
  import opened Assoc

  /** A relative path, as its segments. */
  type Path = seq<string>

  /** A directory tree: each file's path, once, and its text. */
  type Tree = t: seq<(Path, string)> | DistinctKeys(t) witness []

  /** A zip archive's members; a name may repeat. */
  type Zip = seq<(string, string)>

  predicate NoSlash(s: string) {
    forall i :: 0 <= i < |s| ==> s[i] != '/'
  }

  /** A segment that names a file or directory of its own. */
  predicate PlainSegment(s: string) {
    |s| > 0 && NoSlash(s) && s != "." && s != ".."
  }

  /** The segments `Path(*segments)` keeps: "" and "." name no directory
      of their own and are dropped; every other segment, ".." included,
      stays in place. */
  function Normal(p: Path): (r: Path)
    ensures |r| <= |p|
    decreases |p|
  {
    if |p| == 0 then []
    else
      var last := p[|p| - 1];
      var front := Normal(p[..|p| - 1]);
      if last == "" || last == "." then front else front + [last]
  }

  /** `Path(*segments)` keeps exactly the segments other than "" and ".",
      and changes nothing when there are none of those. */
  lemma {:induction false} NormalKeeps(p: Path)
    ensures forall s :: s in Normal(p) <==> s in p && s != "" && s != "."
    ensures (forall i :: 0 <= i < |p| ==> p[i] != "" && p[i] != ".") ==> Normal(p) == p
    decreases |p|
  {
    if |p| > 0 {
      var last := p[|p| - 1];
      NormalKeeps(p[..|p| - 1]);
      assert p == p[..|p| - 1] + [last];
    }
  }

  /** The number of characters in all the segments. */
  function TotalLength(p: Path): nat
    decreases |p|
  {
    if |p| == 0 then 0 else TotalLength(p[..|p| - 1]) + |p[|p| - 1]|
  }

  /** `str(Path(*segments))` for segments that `Path` keeps as they are:
      the segments joined by "/", one separator between each two. */
  function Join(p: Path): (r: string)
    ensures |p| > 0 ==> |r| == TotalLength(p) + |p| - 1
    decreases |p|
  {
    if |p| == 0 then ""
    else if |p| == 1 then p[0]
    else Join(p[..|p| - 1]) + "/" + p[|p| - 1]
  }

  /** `s.rfind(c)`, or None. */
  function LastIndexOf(s: string, c: char): (r: Option<nat>)
    ensures r.Some? ==> r.value < |s| && s[r.value] == c
    ensures r.Some? ==> forall j :: r.value < j < |s| ==> s[j] != c
    ensures r.None? ==> forall j :: 0 <= j < |s| ==> s[j] != c
  {
    if |s| == 0 then None
    else if s[|s| - 1] == c then Some(|s| - 1)
    else LastIndexOf(s[..|s| - 1], c)
  }

  /** `s.split("/")`: the pieces between the slashes, "" included. */
  function Split(s: string): (r: seq<string>)
    ensures |r| > 0
    decreases |s|
  {
    match LastIndexOf(s, '/')
    case None => [s]
    case Some(i) => Split(s[..i]) + [s[i + 1..]]
  }

  /** No piece of a split contains the separator. */
  lemma {:induction false} SplitNoSlash(s: string)
    ensures forall i :: 0 <= i < |Split(s)| ==> NoSlash(Split(s)[i])
    decreases |s|
  {
    match LastIndexOf(s, '/')
    case None =>
    case Some(i) =>
      SplitNoSlash(s[..i]);
      var f := s[i + 1..];
      assert forall j :: 0 <= j < |f| ==> f[j] == s[i + 1 + j];
  }

  /** The root `PurePosixPath` keeps: "//" for exactly two leading
      slashes (POSIX leaves its meaning to the system), "/" for one or for
      three and more, and none for a relative path. */
  function Anchor(s: string): (r: string)
    ensures r == "" || r == "/" || r == "//"
    ensures r == "" <==> |s| == 0 || s[0] != '/'
  {
    if |s| >= 2 && s[0] == '/' && s[1] == '/' && (|s| == 2 || s[2] != '/') then "//"
    else if |s| > 0 && s[0] == '/' then "/"
    else ""
  }

  /** `PurePosixPath(s).parts` after the root: the pieces other than ""
      and ".", in order. */
  function Parts(s: string): (r: Path)
  {
    Normal(Split(s))
  }

  /** `PurePosixPath(s).name`: the last part, "" when there is none (the
      empty path, ".", or a root). */
  function BaseName(s: string): (r: string)
  {
    var ps := Parts(s);
    if |ps| == 0 then "" else ps[|ps| - 1]
  }

  /** A name is one piece, never "."; a string without "/" other than "."
      is its own name. */
  lemma BaseNamePiece(s: string)
    ensures NoSlash(BaseName(s)) && BaseName(s) != "."
    ensures NoSlash(s) && s != "." ==> BaseName(s) == s
  {
    var ps := Parts(s);
    SplitNoSlash(s);
    NormalKeeps(Split(s));
    if |ps| > 0 {
      assert ps[|ps| - 1] in ps;
    }
    if NoSlash(s) {
      assert LastIndexOf(s, '/').None?;
    }
  }

  /** `str(PurePosixPath(s).parent)`: the root followed by the parts
      without the last; "." for a relative path of at most one part, and
      the root itself for a root. */
  function Parent(s: string): (r: string)
  {
    var ps := Parts(s);
    if |ps| <= 1 then (if Anchor(s) == "" then "." else Anchor(s))
    else Anchor(s) + Join(ps[..|ps| - 1])
  }

  /** `PurePath.suffix`: from the last ".", when that dot is neither the
      first nor the last character of the name. */
  function Suffix(name: string): (r: string)
    ensures r == "" || (|r| > 1 && r[0] == '.')
  {
    match LastIndexOf(name, '.')
    case Some(i) => if 0 < i < |name| - 1 then name[i..] else ""
    case None => ""
  }

  /** `PurePath.stem`: the name without its suffix. */
  function Stem(name: string): (r: string)
    ensures |r| <= |name| && name[..|r|] == r
    ensures Suffix(name) == "" ==> r == name
  {
    match LastIndexOf(name, '.')
    case Some(i) => if 0 < i < |name| - 1 then name[..i] else name
    case None => name
  }

  /** A name is its stem followed by its suffix. */
  lemma StemSuffix(name: string)
    ensures Stem(name) + Suffix(name) == name
  {
  }

  /** A non-empty name followed by a one-dot extension splits back into the
      two. */
  lemma {:induction false} SplitExtension(name: string, ext: string)
    requires |name| > 0 && |ext| > 1 && ext[0] == '.'
    requires forall j :: 0 < j < |ext| ==> ext[j] != '.'
    ensures Stem(name + ext) == name && Suffix(name + ext) == ext
  {
    var s := name + ext;
    assert s[|name|] == '.';
    assert forall j :: |name| < j < |s| ==> s[j] == ext[j - |name|];
    assert LastIndexOf(s, '.') == Some(|name|);
    assert s[..|name|] == name && s[|name|..] == ext;
  }

  /** A string without "/" lies in ".", and a root is its own parent. */
  lemma ParentShort(s: string)
    ensures NoSlash(s) ==> Parent(s) == "."
    ensures Parts(s) == [] && Anchor(s) != "" ==> Parent(s) == Anchor(s)
  {
    if NoSlash(s) {
      assert LastIndexOf(s, '/').None?;
    }
  }

  /** As `PurePosixPath`, an empty or "." piece inside a relative path
      does not count: "a//g.json" and "a/./g.json" have the pieces, the
      parent and the name of "a/g.json". */
  lemma IgnoredPieces(dir: string, f: string)
    requires |dir| > 0 && dir[0] != '/' && NoSlash(f)
    ensures Parts(dir + "//" + f) == Parts(dir + "/" + f) == Parts(dir + "/./" + f)
    ensures Parent(dir + "//" + f) == Parent(dir + "/" + f) == Parent(dir + "/./" + f)
    ensures BaseName(dir + "//" + f) == BaseName(dir + "/" + f) == BaseName(dir + "/./" + f)
  {
    var a, b, c := dir + "//" + f, dir + "/" + f, dir + "/./" + f;
    assert a == (dir + "/" + "") + "/" + f;
    assert c == (dir + "/" + ".") + "/" + f;
    SkippedPiece(dir, "", f);
    SkippedPiece(dir, ".", f);
    assert Anchor(a) == Anchor(b) == Anchor(c) == "" by {
      assert a[0] == b[0] == c[0] == dir[0];
    }
    SameParts(a, b);
    SameParts(c, b);
  }

  /** A piece `Path` drops, between a directory and a name, leaves the
      pieces as they were. */
  lemma SkippedPiece(dir: string, x: string, f: string)
    requires (x == "" || x == ".") && NoSlash(f)
    ensures Parts((dir + "/" + x) + "/" + f) == Parts(dir + "/" + f)
  {
    var p := Split(dir);
    assert NoSlash(x);
    SplitSnoc(dir, x);
    SplitSnoc(dir + "/" + x, f);
    SplitSnoc(dir, f);
    NormalSnoc(p, x);
    NormalSnoc(p + [x], f);
    NormalSnoc(p, f);
  }

  /** The parent and the name depend on the anchor and the pieces only. */
  lemma SameParts(s: string, t: string)
    requires Parts(s) == Parts(t) && Anchor(s) == Anchor(t)
    ensures Parent(s) == Parent(t) && BaseName(s) == BaseName(t)
  {
  }

  /** A name without "/" after a directory and "/" is the last piece of
      the split. */
  lemma SplitSnoc(dir: string, f: string)
    requires NoSlash(f)
    ensures Split(dir + "/" + f) == Split(dir) + [f]
  {
    var s := dir + "/" + f;
    var k := |dir|;
    assert s[k] == '/';
    assert forall j :: k < j < |s| ==> s[j] == f[j - k - 1];
    assert LastIndexOf(s, '/') == Some(k);
    assert s[k + 1..] == f;
    assert s[..k] == dir;
  }

  /** One more segment is kept unless it is "" or ".". */
  lemma NormalSnoc(p: Path, x: string)
    ensures Normal(p + [x]) == if x == "" || x == "." then Normal(p) else Normal(p) + [x]
  {
    assert (p + [x])[..|p|] == p;
  }

  /** A path with no empty and no "." piece: no leading, doubled or
      trailing "/", and nothing for `PurePosixPath` to drop. */
  predicate Normalised(s: string) {
    forall i :: 0 <= i < |Split(s)| ==> Split(s)[i] != "" && Split(s)[i] != "."
  }

  /** The empty string and a path starting with "/" split into an empty
      first piece. */
  lemma {:induction false} SplitHead(s: string)
    ensures |s| == 0 || s[0] == '/' ==> Split(s)[0] == ""
    decreases |s|
  {
    match LastIndexOf(s, '/')
    case None =>
    case Some(i) =>
      if i > 0 {
        assert s[..i][0] == s[0];
        SplitHead(s[..i]);
      }
  }

  /** Joining the pieces of a split with "/" gives the string back. */
  lemma {:induction false} JoinSplit(s: string)
    ensures Join(Split(s)) == s
    decreases |s|
  {
    match LastIndexOf(s, '/')
    case None =>
    case Some(i) =>
      var front := Split(s[..i]);
      JoinSplit(s[..i]);
      assert (front + [s[i + 1..]])[..|front|] == front;
      assert s == s[..i] + "/" + s[i + 1..];
  }

  /** Splitting a join of pieces without "/" gives the pieces back. */
  lemma {:induction false} SplitJoin(p: Path)
    requires |p| > 0 && forall i :: 0 <= i < |p| ==> NoSlash(p[i])
    ensures Split(Join(p)) == p
    decreases |p|
  {
    if |p| == 1 {
      assert LastIndexOf(p[0], '/').None?;
    } else {
      var front := p[..|p| - 1];
      SplitJoin(front);
      SplitSnoc(Join(front), p[|p| - 1]);
      assert p == front + [p[|p| - 1]];
    }
  }

  /** A name without "/" after a directory and "/" is the name of the
      path, and a normalised directory its parent. */
  lemma SplitLastSlash(dir: string, f: string)
    requires NoSlash(f) && f != "" && f != "."
    ensures BaseName(dir + "/" + f) == f
    ensures Normalised(dir) ==> Parent(dir + "/" + f) == dir
  {
    var s := dir + "/" + f;
    SplitSnoc(dir, f);
    NormalSnoc(Split(dir), f);
    if Normalised(dir) {
      NormalKeeps(Split(dir));
      SplitHead(dir);
      assert s[0] == dir[0];
      JoinSplit(dir);
      assert Parts(s)[..|Parts(s)| - 1] == Split(dir);
    }
  }

  /** A last segment without "/", neither "" nor ".", is the name of the
      joined path. */
  lemma JoinBaseName(p: Path)
    requires |p| > 0 && NoSlash(p[|p| - 1]) && p[|p| - 1] != "" && p[|p| - 1] != "."
    ensures BaseName(Join(p)) == p[|p| - 1]
  {
    if |p| > 1 {
      SplitLastSlash(Join(p[..|p| - 1]), p[|p| - 1]);
    }
  }

  /** The last segment of a joined path is its name, and the others its
      parent. */
  lemma JoinLast(p: Path, f: string)
    requires |p| > 0 && forall i :: 0 <= i < |p| ==> PlainSegment(p[i])
    requires PlainSegment(f)
    ensures BaseName(Join(p + [f])) == f
    ensures Parent(Join(p + [f])) == Join(p)
  {
    assert Join(p + [f]) == Join(p) + "/" + f by {
      assert (p + [f])[..|p|] == p;
    }
    assert Normalised(Join(p)) by {
      SplitJoin(p);
    }
    SplitLastSlash(Join(p), f);
  }

  /** A path of plain segments joins to a non-empty string. */
  lemma JoinPlain(p: Path)
    requires |p| > 0 && forall i :: 0 <= i < |p| ==> PlainSegment(p[i])
    ensures |Join(p)| > 0
  {
  }

  /** Two paths of plain segments join to the same string only when they
      are the same path. */
  lemma JoinInjective(p: Path, q: Path)
    requires forall i :: 0 <= i < |p| ==> PlainSegment(p[i])
    requires forall i :: 0 <= i < |q| ==> PlainSegment(q[i])
    requires Join(p) == Join(q)
    ensures p == q
  {
    if |p| > 0 && |q| > 0 {
      SplitJoin(p);
      SplitJoin(q);
    } else if |p| > 0 {
      JoinPlain(p);
    } else if |q| > 0 {
      JoinPlain(q);
    }
  }

  /** `PurePosixPath` ignores a trailing "/" or "/.": the name is the
      same with or without it. */
  lemma TrailingSeparator(s: string)
    ensures BaseName(s + "/") == BaseName(s)
    ensures BaseName(s + "/.") == BaseName(s)
  {
    SplitSnoc(s, "");
    assert s + "/" == s + "/" + "";
    NormalSnoc(Split(s), "");
    SplitSnoc(s, ".");
    assert s + "/." == s + "/" + ".";
    NormalSnoc(Split(s), ".");
  }

  /** `zf.read(name)`: the text of the last member with that name. */
  function ZipRead(z: Zip, name: string): (r: Option<string>)
    ensures r.Some? <==> exists i :: 0 <= i < |z| && z[i].0 == name
    ensures r.Some? ==> exists i :: 0 <= i < |z| && z[i] == (name, r.value)
    decreases |z|
  {
    if |z| == 0 then None
    else if z[|z| - 1].0 == name then Some(z[|z| - 1].1)
    else
      var r := ZipRead(z[..|z| - 1], name);
      assert forall i :: 0 <= i < |z| - 1 ==> z[..|z| - 1][i] == z[i];
      r
  }
}
