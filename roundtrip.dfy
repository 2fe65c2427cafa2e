/**
 * Exporting a cache to a directory and importing that directory into an
 * empty cache gives back every exported entry under its own key. This
 * holds when the entries' directories are pairwise distinct, every object
 * type is one the extension table gives back, and every object name is
 * non-empty, has no "/" and does not make the file `_meta.json`.
 */
module RoundTrip {
  import opened Wrappers
  import opened Assoc
  import opened CacheKey
  import opened Entry
  import opened Cache
  import opened Files
  import opened Export
  import opened Import

  /** One exported entry: the directory it is written to, its listing and
      the entry the cache held. */
  datatype Item = Item(path: Path, info: Listed, entry: EntryData)

  /** What looking an entry up in the cache gives. */
  type Got = Result<Option<EntryData>, CacheError>

  /** `f` applied to the key of each listed entry, in order. */
  function Each<B>(f: MatrixValues -> B, entries: seq<Listed>): (r: seq<B>)
    ensures |r| == |entries|
  {
    seq(|entries|, i requires 0 <= i < |entries| => f(entries[i].matrixValues))
  }

  /** A prefix of the entries gives a prefix of the results. */
  lemma EachPrefix<B>(f: MatrixValues -> B, entries: seq<Listed>, m: nat)
    requires m <= |entries|
    ensures Each(f, entries[..m]) == Each(f, entries)[..m]
  {
    assert forall i :: 0 <= i < m ==> entries[..m][i] == entries[i];
  }

  /** Looking an entry up in the cache. */
  function Lookup(sha: Sha256, rows: seq<Row>): MatrixValues -> Got {
    (mv: MatrixValues) => CacheGet(sha, rows, mv)
  }

  /** The directory export writes an entry to. */
  function Place(mk: Option<seq<string>>): MatrixValues -> Path {
    (mv: MatrixValues) => EntryPath(mv, mk)
  }

  /** The listed entries whose lookup found an entry with at least one
      object, in order, with that entry and their directory. */
  function Kept(entries: seq<Listed>, gots: seq<Got>, paths: seq<Path>): (r: seq<Item>)
    requires |gots| == |paths| == |entries|
    ensures |r| <= |entries|
    decreases |entries|
  {
    if |entries| == 0 then []
    else
      var n := |entries| - 1;
      var prev := Kept(entries[..n], gots[..n], paths[..n]);
      match gots[n]
      case Success(Some(e)) => if |e.objects| > 0 then prev + [Item(paths[n], entries[n], e)] else prev
      case _ => prev
  }

  /** The entries export writes, in order: those the cache holds with at
      least one object. */
  function Exported(sha: Sha256, rows: seq<Row>, entries: seq<Listed>, mk: Option<seq<string>>): (r: seq<Item>)
    ensures |r| <= |entries|
  {
    Kept(entries, Each(Lookup(sha, rows), entries), Each(Place(mk), entries))
  }

  /** Each kept entry is a listed one, at index `i`, whose lookup found it
      with at least one object. */
  lemma {:induction false} KeptHeld(entries: seq<Listed>, gots: seq<Got>, paths: seq<Path>, k: nat) returns (i: nat)
    requires |gots| == |paths| == |entries| && k < |Kept(entries, gots, paths)|
    ensures var x := Kept(entries, gots, paths)[k];
      i < |entries| && entries[i] == x.info && paths[i] == x.path &&
      gots[i] == Success(Some(x.entry)) && |x.entry.objects| > 0
    decreases |entries|
  {
    var n := |entries| - 1;
    var prev := Kept(entries[..n], gots[..n], paths[..n]);
    if k < |prev| {
      KeptPrefix(entries, gots, paths, n);
      i := KeptHeld(entries[..n], gots[..n], paths[..n], k);
      assert prev[k] == Kept(entries, gots, paths)[k];
    } else {
      i := n;
    }
  }

  /** Keeping from more entries only adds to what is kept. */
  lemma {:induction false} KeptPrefix(entries: seq<Listed>, gots: seq<Got>, paths: seq<Path>, m: nat)
    requires |gots| == |paths| == |entries| && m <= |entries|
    ensures Kept(entries[..m], gots[..m], paths[..m]) <= Kept(entries, gots, paths)
    decreases |entries| - m
  {
    if m < |entries| {
      KeptPrefix(entries, gots, paths, m + 1);
      var ef, gf, pf := entries[..m + 1], gots[..m + 1], paths[..m + 1];
      assert ef[..m] == entries[..m] && gf[..m] == gots[..m] && pf[..m] == paths[..m];
      assert Kept(ef[..m], gf[..m], pf[..m]) <= Kept(ef, gf, pf);
    } else {
      assert entries[..m] == entries && gots[..m] == gots && paths[..m] == paths;
    }
  }

  /** Every listed entry whose lookup found it with an object is kept, at
      index `k`. */
  lemma KeptIncludes(entries: seq<Listed>, gots: seq<Got>, paths: seq<Path>, i: nat, e: EntryData) returns (k: nat)
    requires |gots| == |paths| == |entries| && i < |entries|
    requires gots[i] == Success(Some(e)) && |e.objects| > 0
    ensures k < |Kept(entries, gots, paths)| && Kept(entries, gots, paths)[k] == Item(paths[i], entries[i], e)
  {
    var ef, gf, pf := entries[..i + 1], gots[..i + 1], paths[..i + 1];
    assert ef[i] == entries[i] && ef[..i] == entries[..i];
    assert gf[i] == gots[i] && gf[..i] == gots[..i];
    assert pf[i] == paths[i] && pf[..i] == paths[..i];
    assert Kept(ef, gf, pf) == Kept(entries[..i], gots[..i], paths[..i]) + [Item(paths[i], entries[i], e)];
    KeptPrefix(entries, gots, paths, i + 1);
    k := |Kept(entries[..i], gots[..i], paths[..i])|;
  }

  /** An object that survives the trip: a non-empty name without "/", a
      type its extension gives back, text content, and a file name other
      than the sidecar's. */
  predicate Portable(name: string, o: CacheObject) {
    |name| > 0 && NoSlash(name) && o.objType in {"graphml", "json", "dat"} &&
    o.content.Some? && name + ExtensionFor(o.objType) != META_NAME
  }

  predicate PortableEntry(e: EntryData) {
    forall i :: 0 <= i < |e.objects| ==> Portable(e.objects[i].0, e.objects[i].1)
  }

  predicate AllPortable(xs: seq<Item>) {
    forall k :: 0 <= k < |xs| ==> PortableEntry(xs[k].entry)
  }

  /** No two entries share a directory. */
  predicate PathsDistinct(xs: seq<Item>) {
    forall a, b :: 0 <= a < b < |xs| ==> xs[a].path != xs[b].path
  }

  /** A lookup that found an entry with at least one object. */
  predicate Holds(g: Got) {
    g.Success? && g.value.Some? && |g.value.value.objects| > 0
  }

  /** Every entry found holds only portable objects. */
  predicate HeldPortable(gots: seq<Got>) {
    forall i :: 0 <= i < |gots| && gots[i].Success? && gots[i].value.Some? ==> PortableEntry(gots[i].value.value)
  }

  /** The directories of the entries export writes stay inside the output
      directory (no ".." segment, which the file system would resolve to
      the parent), and none lies at or inside another's: so no directory
      is shared, and none takes the path of another entry's file. */
  predicate Apart(gots: seq<Got>, paths: seq<Path>)
    requires |gots| == |paths|
  {
    (forall i :: 0 <= i < |paths| && Holds(gots[i]) ==> ".." !in paths[i]) &&
    forall i, j :: 0 <= i < |paths| && 0 <= j < |paths| && i != j && Holds(gots[i]) && Holds(gots[j]) ==>
      !(paths[i] <= paths[j])
  }

  /** The files of an entry whose objects all hold text. */
  function TextsOf(x: Item, codec: JsonCodec): (r: seq<(Path, string)>)
    requires PortableEntry(x.entry)
    ensures |r| == |x.entry.objects| + 1
    ensures forall i :: 0 <= i < |x.entry.objects| ==>
      r[i] == (x.path + [x.entry.objects[i].0 + ExtensionFor(x.entry.objects[i].1.objType)], x.entry.objects[i].1.content.value)
    ensures r[|x.entry.objects|] == (x.path + [META_NAME], codec.dumps(Sidecar(x.info, x.entry.metadata)))
  {
    var w := EntryWrites(x.path, x.info, x.entry, codec);
    assert forall i :: 0 <= i < |w| ==> w[i].1.Some?;
    Texts(w)
  }

  /** Everything export writes for `xs`, in order. */
  function Written(xs: seq<Item>, codec: JsonCodec): (r: seq<(Path, string)>)
    requires AllPortable(xs)
    decreases |xs|
  {
    if |xs| == 0 then []
    else Written(xs[..|xs| - 1], codec) + TextsOf(xs[|xs| - 1], codec)
  }

  /** Each file of an entry lies directly inside its directory. */
  lemma TextsOfParent(x: Item, codec: JsonCodec, j: nat)
    requires PortableEntry(x.entry) && j < |TextsOf(x, codec)|
    ensures var p := TextsOf(x, codec)[j].0; |p| == |x.path| + 1 && p[..|p| - 1] == x.path
  {
  }

  /** What one more entry adds to the files written. */
  lemma WrittenSnoc(xs: seq<Item>, codec: JsonCodec)
    requires AllPortable(xs) && |xs| > 0
    ensures AllPortable(xs[..|xs| - 1])
    ensures Written(xs, codec) == Written(xs[..|xs| - 1], codec) + TextsOf(xs[|xs| - 1], codec)
  {
    assert forall a :: 0 <= a < |xs| - 1 ==> xs[..|xs| - 1][a] == xs[a];
  }

  /** A file written for `xs` lies directly inside the directory of one of
      them, so not inside any other directory. */
  lemma {:induction false} WrittenAway(xs: seq<Item>, codec: JsonCodec, d: Path, i: nat)
    requires AllPortable(xs)
    requires forall a :: 0 <= a < |xs| ==> xs[a].path != d
    requires i < |Written(xs, codec)|
    ensures var p := Written(xs, codec)[i].0; |p| > 0 && p[..|p| - 1] != d
    decreases |xs|
  {
    var n := |xs| - 1;
    var front := xs[..n];
    WrittenSnoc(xs, codec);
    var wf := Written(front, codec);
    if i < |wf| {
      assert forall a :: 0 <= a < |front| ==> front[a] == xs[a];
      WrittenAway(front, codec, d, i);
    } else {
      TextsOfParent(xs[n], codec, i - |wf|);
    }
  }

  /** The files an entry's directory holds besides the sidecar: one per
      object, `<name><ext>`, with its text. */
  function ObjectFiles(e: EntryData): (r: seq<(string, string)>)
    requires PortableEntry(e)
    ensures |r| == |e.objects|
    ensures forall i :: 0 <= i < |r| ==>
      r[i] == (e.objects[i].0 + ExtensionFor(e.objects[i].1.objType), e.objects[i].1.content.value)
  {
    seq(|e.objects|, i requires 0 <= i < |e.objects| =>
      (e.objects[i].0 + ExtensionFor(e.objects[i].1.objType), e.objects[i].1.content.value))
  }

  /** Every extension is a dot followed by characters other than dots. */
  lemma ExtensionShape(t: string)
    ensures |ExtensionFor(t)| > 1 && ExtensionFor(t)[0] == '.'
    ensures forall j :: 0 < j < |ExtensionFor(t)| ==> ExtensionFor(t)[j] != '.'
  {
  }

  /** Reading an entry's object files back gives its objects. */
  lemma ObjectFilesRead(e: EntryData)
    requires PortableEntry(e)
    ensures GroupObjects(ObjectFiles(e)) == e.objects
  {
    var fs, objs := ObjectFiles(e), e.objects;
    forall i | 0 <= i < |fs| ensures FileObjects(fs)[i] == objs[i] {
      var (n, o) := objs[i];
      ExtensionShape(o.objType);
      TypeExtensionInverse(o.objType);
      SplitExtension(n, ExtensionFor(o.objType));
    }
    assert FileObjects(fs) == objs;
    FromPairsDistinct(objs);
  }

  /** The files of an entry whose directory differs from those of `xs` are
      new to what was written for `xs`. */
  lemma FreshFiles(xs: seq<Item>, x: Item, codec: JsonCodec)
    requires AllPortable(xs)
    requires forall a :: 0 <= a < |xs| ==> xs[a].path != x.path
    ensures forall i :: 0 <= i < |EntryWrites(x.path, x.info, x.entry, codec)| ==>
      EntryWrites(x.path, x.info, x.entry, codec)[i].0 !in KeySet(Written(xs, codec))
  {
    var w, ws := EntryWrites(x.path, x.info, x.entry, codec), Written(xs, codec);
    forall i | 0 <= i < |w| ensures w[i].0 !in KeySet(ws) {
      var p := w[i].0;
      assert |p| == |x.path| + 1 && p[..|x.path|] == x.path;
      if p in KeySet(ws) {
        var j :| 0 <= j < |ws| && ws[j].0 == p;
        WrittenAway(xs, codec, x.path, j);
      }
    }
  }

  /** An entry held with text objects, written into a tree that has none
      of its files yet, is exported and appends its files. */
  lemma SingleEntryWrites(sha: Sha256, rows: seq<Row>, x: Item, mk: Option<seq<string>>, codec: JsonCodec, t: Tree)
    requires x.path == EntryPath(x.info.matrixValues, mk)
    requires CacheGet(sha, rows, x.info.matrixValues) == Success(Some(x.entry)) && |x.entry.objects| > 0
    requires PortableEntry(x.entry)
    requires forall i :: 0 <= i < |x.entry.objects| + 1 ==> EntryWrites(x.path, x.info, x.entry, codec)[i].0 !in KeySet(t)
    ensures var s := SingleEntry(sha, rows, x.info, mk, codec, DirOut(t));
      s.0 && s.1.DirOut? && s.1.tree == t + TextsOf(x, codec) && s.2.None?
  {
    EntryExported(DirOut(t), x.path, x.info, x.entry, codec);
  }

  /** Writing one more entry, whose directory is new, into the files of
      `xf` gives the files of `xf + [x]`. */
  lemma ExportStep(sha: Sha256, rows: seq<Row>, xf: seq<Item>, x: Item, mk: Option<seq<string>>, codec: JsonCodec, t: Tree)
    returns (t': Tree)
    requires AllPortable(xf) && PortableEntry(x.entry) && t == Written(xf, codec)
    requires x.path == EntryPath(x.info.matrixValues, mk)
    requires CacheGet(sha, rows, x.info.matrixValues) == Success(Some(x.entry)) && |x.entry.objects| > 0
    requires forall a :: 0 <= a < |xf| ==> xf[a].path != x.path
    ensures AllPortable(xf + [x]) && t' == Written(xf + [x], codec)
    ensures SingleEntry(sha, rows, x.info, mk, codec, DirOut(t)) == (true, DirOut(t'), None)
  {
    assert AllPortable(xf + [x]) && Written(xf + [x], codec) == t + TextsOf(x, codec) by {
      assert (xf + [x])[..|xf|] == xf;
      WrittenSnoc(xf + [x], codec);
    }
    FreshFiles(xf, x, codec);
    SingleEntryWrites(sha, rows, x, mk, codec, t);
    t' := t + TextsOf(x, codec);
  }

  /** An entry exported after the others have been adds one to the count
      and leaves the output it wrote. */
  lemma ExportFromWrote(sha: Sha256, rows: seq<Row>, entries: seq<Listed>, mk: Option<seq<string>>, codec: JsonCodec,
                        c: nat, t: Tree, t': Tree)
    requires |entries| > 0
    requires ExportFrom(sha, rows, entries[..|entries| - 1], mk, codec, DirOut([])) == ExportProgress(c, DirOut(t), None)
    requires SingleEntry(sha, rows, entries[|entries| - 1], mk, codec, DirOut(t)) == (true, DirOut(t'), None)
    ensures ExportFrom(sha, rows, entries, mk, codec, DirOut([])) == ExportProgress(c + 1, DirOut(t'), None)
  {
  }

  /** When the last entry is held, the directories of the entries kept
      before it all differ from its own. */
  lemma KeptFrontApart(entries: seq<Listed>, gots: seq<Got>, paths: seq<Path>)
    requires |gots| == |paths| == |entries| > 0
    requires Apart(gots, paths) && Holds(gots[|entries| - 1])
    ensures var n := |entries| - 1; var xf := Kept(entries[..n], gots[..n], paths[..n]);
      forall a :: 0 <= a < |xf| ==> xf[a].path != paths[n]
  {
    var n := |entries| - 1;
    var xf := Kept(entries[..n], gots[..n], paths[..n]);
    forall a | 0 <= a < |xf| ensures xf[a].path != paths[n] {
      var i := KeptHeld(entries[..n], gots[..n], paths[..n], a);
      assert paths[i] == xf[a].path && Holds(gots[i]);
    }
  }

  /** The last entry is found, with an object, where the export puts it. */
  predicate LastHeld(sha: Sha256, rows: seq<Row>, entries: seq<Listed>, gots: seq<Got>, paths: seq<Path>,
                     mk: Option<seq<string>>, e: EntryData)
    requires |gots| == |paths| == |entries| > 0
  {
    var n := |entries| - 1;
    gots[n] == CacheGet(sha, rows, entries[n].matrixValues) == Success(Some(e)) &&
    paths[n] == EntryPath(entries[n].matrixValues, mk) && |e.objects| > 0
  }

  /** The last entry, held with an object, is written after the others. */
  lemma ExportWritesKept(sha: Sha256, rows: seq<Row>, entries: seq<Listed>, gots: seq<Got>, paths: seq<Path>,
                         mk: Option<seq<string>>, codec: JsonCodec, tf: Tree, e: EntryData)
    returns (t: Tree)
    requires |gots| == |paths| == |entries| > 0
    requires LastHeld(sha, rows, entries, gots, paths, mk, e) && PortableEntry(e)
    requires var n := |entries| - 1; var xf := Kept(entries[..n], gots[..n], paths[..n]);
      forall a :: 0 <= a < |xf| ==> xf[a].path != paths[n]
    requires var n := |entries| - 1; var xf := Kept(entries[..n], gots[..n], paths[..n]);
      AllPortable(xf) && tf == Written(xf, codec)
    ensures Kept(entries, gots, paths) == Kept(entries[..|entries| - 1], gots[..|entries| - 1], paths[..|entries| - 1])
      + [Item(paths[|entries| - 1], entries[|entries| - 1], e)]
    ensures AllPortable(Kept(entries, gots, paths)) && t == Written(Kept(entries, gots, paths), codec)
    ensures SingleEntry(sha, rows, entries[|entries| - 1], mk, codec, DirOut(tf)) == (true, DirOut(t), None)
  {
    var n := |entries| - 1;
    var xf := Kept(entries[..n], gots[..n], paths[..n]);
    var x := Item(paths[n], entries[n], e);
    assert gots[n] == Success(Some(e)) && |e.objects| > 0;
    assert Kept(entries, gots, paths) == xf + [x];
    assert x.path == EntryPath(x.info.matrixValues, mk);
    assert CacheGet(sha, rows, x.info.matrixValues) == Success(Some(x.entry));
    assert AllPortable(xf) && tf == Written(xf, codec);
    t := ExportStep(sha, rows, xf, x, mk, codec, tf);
  }

  /** What the export of all entries demands of the lookups and the
      directories holds of their prefixes. */
  lemma FrontKeeps(gots: seq<Got>, paths: seq<Path>, n: nat)
    requires |gots| == |paths| && n <= |gots|
    requires forall i :: 0 <= i < |gots| ==> gots[i].Success?
    requires HeldPortable(gots) && Apart(gots, paths)
    ensures forall i :: 0 <= i < n ==> gots[..n][i].Success?
    ensures HeldPortable(gots[..n]) && Apart(gots[..n], paths[..n])
  {
    assert forall i :: 0 <= i < n ==> gots[..n][i] == gots[i] && paths[..n][i] == paths[i];
  }

  /** Exporting into an empty directory writes exactly the files of the
      kept entries, in order, and counts them. */
  lemma {:induction false} ExportWritesAll(sha: Sha256, rows: seq<Row>, entries: seq<Listed>, gots: seq<Got>, paths: seq<Path>,
                                           mk: Option<seq<string>>, codec: JsonCodec)
    returns (t: Tree)
    requires gots == Each(Lookup(sha, rows), entries) && paths == Each(Place(mk), entries)
    requires forall i :: 0 <= i < |gots| ==> gots[i].Success?
    requires HeldPortable(gots) && Apart(gots, paths)
    ensures AllPortable(Kept(entries, gots, paths)) && t == Written(Kept(entries, gots, paths), codec)
    ensures ExportFrom(sha, rows, entries, mk, codec, DirOut([])) == ExportProgress(|Kept(entries, gots, paths)|, DirOut(t), None)
    decreases |entries|
  {
    if |entries| == 0 {
      return [];
    }
    var n := |entries| - 1;
    EachPrefix(Lookup(sha, rows), entries, n);
    EachPrefix(Place(mk), entries, n);
    FrontKeeps(gots, paths, n);
    var tf := ExportWritesAll(sha, rows, entries[..n], gots[..n], paths[..n], mk, codec);
    if Holds(gots[n]) {
      KeptFrontApart(entries, gots, paths);
      t := ExportWritesKept(sha, rows, entries, gots, paths, mk, codec, tf, gots[n].value.value);
      ExportFromWrote(sha, rows, entries, mk, codec, |Kept(entries[..n], gots[..n], paths[..n])|, tf, t);
    } else {
      t := tf;
    }
  }
}
