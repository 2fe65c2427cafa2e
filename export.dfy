/**
 * export.py: writing cache entries out as files. Each entry with at least
 * one object becomes a directory `<segment>/.../<segment>/` built from its
 * matrix values, holding one `<name><ext>` file per object and a
 * `_meta.json` sidecar with the matrix values, creation time and metadata.
 * The same relative paths become member names in the zip variant.
 */
module Export {
  import opened Wrappers
  import opened Assoc
  import opened Values
  import Strings
  import opened CacheKey
  import opened Entry
  import opened Cache
  import opened Files

  /** `TYPE_EXTENSIONS`. */
  const TYPE_EXTENSIONS: seq<(string, string)> := [("graphml", ".graphml"), ("json", ".json")]

  /** The sidecar's file name. */
  const META_NAME: string := "_meta.json"

  /** `get_extension_for_type`: the table's extension, ".dat" otherwise. */
  function ExtensionFor(t: string): (r: string)
    ensures t == "graphml" ==> r == ".graphml"
    ensures t == "json" ==> r == ".json"
    ensures t != "graphml" && t != "json" ==> r == ".dat"
  {
    assert forall p :: p in TYPE_EXTENSIONS ==> p == ("graphml", ".graphml") || p == ("json", ".json");
    assert DistinctKeys(TYPE_EXTENSIONS);
    assert TYPE_EXTENSIONS[0] == ("graphml", ".graphml") && TYPE_EXTENSIONS[1] == ("json", ".json");
    Get(TYPE_EXTENSIONS, t).GetOr(".dat")
  }

  /** `str(value).replace("/", "_").replace("\\", "_")`. */
  function Sanitise(v: Scalar): (r: string)
    ensures |r| == |Str(v)|
    ensures forall i :: 0 <= i < |r| ==> r[i] != '/' && r[i] != '\\'
    ensures forall i :: 0 <= i < |r| && Str(v)[i] != '/' && Str(v)[i] != '\\' ==> r[i] == Str(v)[i]
  {
    Strings.ReplaceChar(Strings.ReplaceChar(Str(v), '/', '_'), '\\', '_')
  }

  predicate NoSeparator(s: string) {
    forall i :: 0 <= i < |s| ==> s[i] != '/' && s[i] != '\\'
  }

  /** The segments for `keys`, in order, skipping keys without a value. */
  function SegmentsFor(mv: MatrixValues, keys: seq<string>): (r: seq<string>)
    ensures |r| <= |keys|
    ensures forall i :: 0 <= i < |r| ==> NoSeparator(r[i])
    decreases |keys|
  {
    if |keys| == 0 then []
    else
      var rest := SegmentsFor(mv, keys[..|keys| - 1]);
      var k := keys[|keys| - 1];
      if k in KeySet(mv) then rest + [Sanitise(Get(mv, k).value)] else rest
  }

  /** `matrix_keys`, or the sorted variable names when it is None. */
  function PathKeys(mv: MatrixValues, mk: Option<seq<string>>): seq<string> {
    if mk.None? then Strings.Sort(Keys(mv)) else mk.value
  }

  /** `build_entry_path`, as the segments of the `Path` it returns:
      "default" when no key yields a segment, otherwise `Path(*segments)`,
      which drops the segments "" and "." (and is the empty path, ".",
      when that leaves none). */
  function EntryPath(mv: MatrixValues, mk: Option<seq<string>>): (r: Path)
    ensures forall i :: 0 <= i < |r| ==> NoSeparator(r[i]) && r[i] != "" && r[i] != "."
    ensures SegmentsFor(mv, PathKeys(mv, mk)) == [] ==> r == ["default"]
  {
    var segs := SegmentsFor(mv, PathKeys(mv, mk));
    if |segs| > 0 then
      var r := Normal(segs);
      NormalKeeps(segs);
      assert forall i :: 0 <= i < |r| ==> r[i] in segs;
      r
    else ["default"]
  }

  /** A path built from segments holds exactly those other than "" and
      ".", and is the segment list itself when there are none of those. */
  lemma EntryPathSegments(mv: MatrixValues, mk: Option<seq<string>>)
    ensures var segs := SegmentsFor(mv, PathKeys(mv, mk));
      segs != [] ==> forall s :: s in EntryPath(mv, mk) <==> s in segs && s != "" && s != "."
    ensures var segs := SegmentsFor(mv, PathKeys(mv, mk));
      segs != [] && (forall i :: 0 <= i < |segs| ==> segs[i] != "" && segs[i] != ".") ==> EntryPath(mv, mk) == segs
  {
    NormalKeeps(SegmentsFor(mv, PathKeys(mv, mk)));
  }

  /** The segment list is empty exactly when none of the keys has a value,
      and then the path is "default". */
  lemma {:induction false} SegmentsForEmpty(mv: MatrixValues, keys: seq<string>)
    ensures SegmentsFor(mv, keys) == [] <==> forall k :: k in keys ==> k !in KeySet(mv)
    decreases |keys|
  {
    if |keys| > 0 {
      SegmentsForEmpty(mv, keys[..|keys| - 1]);
      assert keys == keys[..|keys| - 1] + [keys[|keys| - 1]];
    }
  }

  /** A key without a value contributes no segment, wherever it is listed. */
  lemma {:induction false} AbsentKeyIgnored(mv: MatrixValues, front: seq<string>, k: string, back: seq<string>)
    requires k !in KeySet(mv)
    ensures SegmentsFor(mv, front + [k] + back) == SegmentsFor(mv, front + back)
    decreases |back|
  {
    if |back| == 0 {
      assert (front + [k] + back)[..|front| + 1 - 1] == front;
      assert front + back == front;
    } else {
      var b' := back[..|back| - 1];
      AbsentKeyIgnored(mv, front, k, b');
      assert (front + [k] + back)[..|front + [k] + back| - 1] == front + [k] + b';
      assert (front + back)[..|front + back| - 1] == front + b';
    }
  }

  /** One more key. */
  lemma SegmentsForSnoc(mv: MatrixValues, keys: seq<string>, k: string)
    ensures SegmentsFor(mv, keys + [k]) ==
            if k in KeySet(mv) then SegmentsFor(mv, keys) + [Sanitise(Get(mv, k).value)] else SegmentsFor(mv, keys)
  {
    assert (keys + [k])[..|keys|] == keys;
  }

  /** One more key of a list. */
  lemma SegmentsForNext(mv: MatrixValues, keys: seq<string>, i: nat)
    requires i < |keys|
    ensures SegmentsFor(mv, keys[..i + 1]) ==
            if keys[i] in KeySet(mv) then SegmentsFor(mv, keys[..i]) + [Sanitise(Get(mv, keys[i]).value)]
            else SegmentsFor(mv, keys[..i])
  {
    assert keys[..i + 1][..i] == keys[..i];
  }

  /** When every listed key has a value, segment i comes from key i. */
  lemma {:induction false} SegmentsAllPresent(mv: MatrixValues, keys: seq<string>)
    requires forall i :: 0 <= i < |keys| ==> keys[i] in KeySet(mv)
    ensures |SegmentsFor(mv, keys)| == |keys|
    ensures forall i :: 0 <= i < |keys| ==> SegmentsFor(mv, keys)[i] == Sanitise(Get(mv, keys[i]).value)
    decreases |keys|
  {
    if |keys| > 0 {
      var front := keys[..|keys| - 1];
      SegmentsAllPresent(mv, front);
      var want := seq(|keys|, i requires 0 <= i < |keys| => Sanitise(Get(mv, keys[i]).value));
      SnocMatches(SegmentsFor(mv, keys), SegmentsFor(mv, front), want);
    }
  }

  /** A list one longer than a matching prefix, ending in the wanted last
      element, matches throughout. */
  lemma SnocMatches(r: seq<string>, rf: seq<string>, want: seq<string>)
    requires |want| > 0 && r == rf + [want[|want| - 1]]
    requires |rf| == |want| - 1 && forall i :: 0 <= i < |rf| ==> rf[i] == want[i]
    ensures |r| == |want| && forall i :: 0 <= i < |r| ==> r[i] == want[i]
  {
    forall i | 0 <= i < |r| ensures r[i] == want[i] {
      if i < |rf| {
        assert r[i] == rf[i];
      }
    }
  }

  /** With no `matrix_keys`, the segments the path is built from are the
      values of the canonical key, in sorted key order. */
  lemma DefaultOrderIsSorted(mv: MatrixValues)
    ensures var segs := SegmentsFor(mv, PathKeys(mv, None));
      |segs| == |KeyJson(mv)| && forall i :: 0 <= i < |KeyJson(mv)| ==> segs[i] == Sanitise(KeyJson(mv)[i].1)
  {
    var ks := Strings.Sort(Keys(mv));
    SortedKeysPresent(mv);
    SegmentsAllPresent(mv, ks);
    Strings.SortDistinct(Keys(mv));
    var r := KeyJson(mv);
    assert r == PairsFor(mv, ks);
    var segs := SegmentsFor(mv, ks);
    forall i | 0 <= i < |r| ensures segs[i] == Sanitise(r[i].1) {
      assert Keys(r)[i] == r[i].0;
    }
  }

  /** Segments depend only on the key's contents, not on the order of its
      pairs. */
  lemma {:induction false} SegmentsAgree(a: MatrixValues, b: MatrixValues, keys: seq<string>)
    requires ToMap(a) == ToMap(b)
    ensures SegmentsFor(a, keys) == SegmentsFor(b, keys)
    decreases |keys|
  {
    if |keys| > 0 {
      var k := keys[|keys| - 1];
      SegmentsAgree(a, b, keys[..|keys| - 1]);
      if k in KeySet(a) {
        assert Get(a, k) == Some(ToMap(a)[k]) == Get(b, k);
      }
    }
  }

  /** Two keys with the same contents are written to the same directory. */
  lemma EntryPathByContents(a: MatrixValues, b: MatrixValues, mk: Option<seq<string>>)
    requires ToMap(a) == ToMap(b)
    ensures EntryPath(a, mk) == EntryPath(b, mk)
  {
    if mk.None? {
      SortedKeysAgree(a, b);
    }
    SegmentsAgree(a, b, PathKeys(a, mk));
  }

  /** `build_entry_path`: the loop that collects the segments. */
  method BuildEntryPath(mv: MatrixValues, mk: Option<seq<string>>) returns (r: Path)
    ensures r == EntryPath(mv, mk)
  {
    var keys := if mk.None? then Strings.Sort(Keys(mv)) else mk.value;
    var segments: seq<string> := [];
    var i := 0;
    while i < |keys|
      invariant 0 <= i <= |keys|
      invariant segments == SegmentsFor(mv, keys[..i])
    {
      SegmentsForNext(mv, keys, i);
      if keys[i] in KeySet(mv) {
        segments := segments + [Sanitise(Get(mv, keys[i]).value)];
      }
      i := i + 1;
    }
    assert keys[..|keys|] == keys;
    if |segments| > 0 {
      return Normal(segments);
    }
    return ["default"];
  }

  /** The sidecar's fields as written: `matrix_values`, `created_at` and
      `metadata`; a field absent from a sidecar that is read back is None. */
  datatype MetaDoc = MetaDoc(matrixValues: Option<MatrixValues>, createdAt: Option<string>, metadata: Option<Metadata>)

  /** `json.dumps` and `json.loads` of a sidecar; `loads` is None for text
      that is not a JSON object. */
  datatype JsonCodec = JsonCodec(dumps: MetaDoc -> string, loads: string -> Option<MetaDoc>)

  /** Reading back what was written gives the same sidecar. */
  ghost predicate RoundTrips(c: JsonCodec) {
    forall d :: c.loads(c.dumps(d)) == Some(d)
  }

  /** The sidecar of a listed entry. */
  function Sidecar(info: Listed, md: Metadata): MetaDoc {
    MetaDoc(Some(info.matrixValues), Some(info.createdAt), Some(md))
  }

  /** The file an object is written to, and its text (None is not text). */
  function ObjectWrites(path: Path, objs: seq<(string, CacheObject)>): (r: seq<(Path, Option<string>)>)
    ensures |r| == |objs|
    ensures forall i :: 0 <= i < |r| ==>
      r[i] == (path + [objs[i].0 + ExtensionFor(objs[i].1.objType)], objs[i].1.content)
  {
    seq(|objs|, i requires 0 <= i < |objs| =>
      (path + [objs[i].0 + ExtensionFor(objs[i].1.objType)], objs[i].1.content))
  }

  /** Every file written for one entry, in order: the objects, then the
      sidecar. */
  function EntryWrites(path: Path, info: Listed, e: EntryData, codec: JsonCodec): (r: seq<(Path, Option<string>)>)
    ensures |r| == |e.objects| + 1
  {
    ObjectWrites(path, e.objects) + [(path + [META_NAME], Some(codec.dumps(Sidecar(info, e.metadata))))]
  }

  /** What export leaves at the output path: nothing when it stopped before
      opening the output, else the directory tree or the archive. */
  datatype Output = Untouched | DirOut(tree: Tree) | ZipOut(members: Zip)

  /** Failures that stop an export: the cache's, or an object whose content
      is not text. */
  datatype ExportError = CacheFailure(err: CacheError) | NotText(path: Path)

  /** `write_text` into a tree (replacing a file of that path) or `writestr`
      into an archive (appending a member). */
  function WriteTo(out: Output, path: Path, text: string): (r: Output)
    ensures out.DirOut? ==> r.DirOut? && r.tree == Put(out.tree, path, text)
    ensures out.ZipOut? ==> r == ZipOut(out.members + [(Join(path), text)])
    ensures out.Untouched? ==> r == out
  {
    match out
    case DirOut(t) =>
      PutKeys(t, path, text);
      DirOut(Put(t, path, text))
    case ZipOut(z) => ZipOut(z + [(Join(path), text)])
    case Untouched => out
  }

  /** Writing files in order until one has no text. */
  function WriteFiles(out: Output, files: seq<(Path, Option<string>)>): (r: (Output, Option<ExportError>))
    decreases |files|
  {
    if |files| == 0 then (out, None)
    else
      var prev := WriteFiles(out, files[..|files| - 1]);
      var last := files[|files| - 1];
      if prev.1.Some? then prev
      else if last.1.None? then (prev.0, Some(NotText(last.0)))
      else (WriteTo(prev.0, last.0, last.1.value), None)
  }

  /** Once a write has failed, later files change nothing. */
  lemma {:induction false} WriteFilesStops(out: Output, files: seq<(Path, Option<string>)>, more: seq<(Path, Option<string>)>)
    requires WriteFiles(out, files).1.Some?
    ensures WriteFiles(out, files + more) == WriteFiles(out, files)
    decreases |more|
  {
    if |more| == 0 {
      assert files + more == files;
    } else {
      WriteFilesStops(out, files, more[..|more| - 1]);
      assert (files + more)[..|files + more| - 1] == files + more[..|more| - 1];
    }
  }

  /** The texts of files that all have text. */
  function Texts(files: seq<(Path, Option<string>)>): (r: seq<(Path, string)>)
    requires forall i :: 0 <= i < |files| ==> files[i].1.Some?
    ensures |r| == |files| && forall i :: 0 <= i < |r| ==> r[i] == (files[i].0, files[i].1.value)
  {
    seq(|files|, i requires 0 <= i < |files| => (files[i].0, files[i].1.value))
  }

  lemma KeyNotInConcat<K, V>(a: seq<(K, V)>, b: seq<(K, V)>, x: K)
    requires x !in KeySet(a) && forall i :: 0 <= i < |b| ==> b[i].0 != x
    ensures x !in KeySet(a + b)
  {
  }

  /** Files with text and new, distinct paths are appended to a tree in
      order, contents unchanged. */
  lemma {:induction false} WriteFilesDir(t: Tree, files: seq<(Path, Option<string>)>)
    requires forall i :: 0 <= i < |files| ==> files[i].1.Some?
    requires forall i :: 0 <= i < |files| ==> files[i].0 !in KeySet(t)
    requires forall i, j :: 0 <= i < j < |files| ==> files[i].0 != files[j].0
    ensures WriteFiles(DirOut(t), files).1.None?
    ensures WriteFiles(DirOut(t), files).0.DirOut?
    ensures WriteFiles(DirOut(t), files).0.tree == t + Texts(files)
    decreases |files|
  {
    if |files| > 0 {
      var n := |files|;
      var front := files[..n - 1];
      WriteFilesDir(t, front);
      var last := (files[n - 1].0, files[n - 1].1.value);
      KeyNotInConcat(t, Texts(front), last.0);
      assert Texts(files) == Texts(front) + [last];
    }
  }

  /** Files with text are appended to an archive in order, each under its
      joined path. */
  lemma {:induction false} WriteFilesZip(z: Zip, files: seq<(Path, Option<string>)>)
    requires forall i :: 0 <= i < |files| ==> files[i].1.Some?
    ensures WriteFiles(ZipOut(z), files).1.None?
    ensures WriteFiles(ZipOut(z), files).0 ==
      ZipOut(z + seq(|files|, i requires 0 <= i < |files| => (Join(files[i].0), files[i].1.value)))
    decreases |files|
  {
    if |files| > 0 {
      var n := |files|;
      WriteFilesZip(z, files[..n - 1]);
      var added := seq(n - 1, i requires 0 <= i < n - 1 => (Join(files[i].0), files[i].1.value));
      var all := seq(n, i requires 0 <= i < n => (Join(files[i].0), files[i].1.value));
      assert all == added + [(Join(files[n - 1].0), files[n - 1].1.value)];
    }
  }

  /** Writing files never changes the kind of output. */
  predicate SameKind(a: Output, b: Output) {
    (a.DirOut? <==> b.DirOut?) && (a.ZipOut? <==> b.ZipOut?)
  }

  lemma {:induction false} WriteFilesKind(out: Output, files: seq<(Path, Option<string>)>)
    ensures SameKind(WriteFiles(out, files).0, out)
    decreases |files|
  {
    if |files| > 0 {
      WriteFilesKind(out, files[..|files| - 1]);
    }
  }

  /** `write_entry_to_dir`: each object's file, then the sidecar, written
      into the tree; stops at the first content that is not text. */
  method WriteEntryToDir(t: Tree, path: Path, info: Listed, e: EntryData, codec: JsonCodec)
    returns (t': Tree, err: Option<ExportError>)
    ensures (DirOut(t'), err) == WriteFiles(DirOut(t), EntryWrites(path, info, e, codec))
  {
    t', err := WriteToDir(t, EntryWrites(path, info, e, codec));
  }

  /** Writes `files` into the tree in turn, stopping at the first one
      without text. */
  method WriteToDir(t: Tree, files: seq<(Path, Option<string>)>) returns (t': Tree, err: Option<ExportError>)
    ensures (DirOut(t'), err) == WriteFiles(DirOut(t), files)
  {
    t' := t;
    var i := 0;
    while i < |files|
      invariant 0 <= i <= |files|
      invariant (DirOut(t'), None) == WriteFiles(DirOut(t), files[..i])
    {
      assert files[..i + 1][..i] == files[..i];
      var (p, content) := files[i];
      if content.None? {
        WriteFilesStops(DirOut(t), files[..i + 1], files[i + 1..]);
        assert files[..i + 1] + files[i + 1..] == files;
        return t', Some(NotText(p));
      }
      PutKeys(t', p, content.value);
      t' := Put(t', p, content.value);
      i := i + 1;
    }
    assert files[..i] == files;
    return t', None;
  }

  /** `write_entry_to_zip`: the same files, appended to the archive under
      their joined names. */
  method WriteEntryToZip(z: Zip, path: Path, info: Listed, e: EntryData, codec: JsonCodec)
    returns (z': Zip, err: Option<ExportError>)
    ensures (ZipOut(z'), err) == WriteFiles(ZipOut(z), EntryWrites(path, info, e, codec))
  {
    z', err := WriteToZip(z, EntryWrites(path, info, e, codec));
  }

  /** Appends `files` to the archive in turn, stopping at the first one
      without text. */
  method WriteToZip(z: Zip, files: seq<(Path, Option<string>)>) returns (z': Zip, err: Option<ExportError>)
    ensures (ZipOut(z'), err) == WriteFiles(ZipOut(z), files)
  {
    z' := z;
    var i := 0;
    while i < |files|
      invariant 0 <= i <= |files|
      invariant (ZipOut(z'), None) == WriteFiles(ZipOut(z), files[..i])
    {
      assert files[..i + 1][..i] == files[..i];
      var (p, content) := files[i];
      if content.None? {
        WriteFilesStops(ZipOut(z), files[..i + 1], files[i + 1..]);
        assert files[..i + 1] + files[i + 1..] == files;
        return z', Some(NotText(p));
      }
      z' := z' + [(Join(p), content.value)];
      i := i + 1;
    }
    assert files[..i] == files;
    return z', None;
  }

  /** An entry is skipped when the cache has no entry for it or the entry
      has no objects. */
  predicate Skipped(sha: Sha256, rows: seq<Row>, info: Listed) {
    var got := CacheGet(sha, rows, info.matrixValues);
    got.Success? && (got.value.None? || |got.value.value.objects| == 0)
  }

  /** `_export_single_entry` on an open cache: whether the entry was
      exported, the output afterwards, and the failure that stopped it. */
  function SingleEntry(sha: Sha256, rows: seq<Row>, info: Listed, mk: Option<seq<string>>, codec: JsonCodec, out: Output)
    : (r: (bool, Output, Option<ExportError>))
    ensures Skipped(sha, rows, info) ==> r == (false, out, None)
    ensures CacheGet(sha, rows, info.matrixValues).Failure? ==>
      r == (false, out, Some(CacheFailure(CacheGet(sha, rows, info.matrixValues).error)))
    ensures r.0 <==> !Skipped(sha, rows, info) && r.2.None?
    ensures SameKind(r.1, out)
  {
    WriteFilesKind(out, []);
    match CacheGet(sha, rows, info.matrixValues)
    case Failure(e) => (false, out, Some(CacheFailure(e)))
    case Success(None) => (false, out, None)
    case Success(Some(e)) =>
      if |e.objects| == 0 then (false, out, None)
      else
        var files := EntryWrites(EntryPath(info.matrixValues, mk), info, e, codec);
        WriteFilesKind(out, files);
        var w := WriteFiles(out, files);
        (w.1.None?, w.0, w.1)
  }

  /** `_export_single_entry` on an open cache, writing into a directory tree
      or an archive. */
  method ExportSingleEntry(cache: WorkflowCache, info: Listed, mk: Option<seq<string>>, codec: JsonCodec, out: Output)
    returns (exported: bool, out': Output, err: Option<ExportError>)
    requires cache.connected
    requires out.DirOut? || out.ZipOut?
    ensures (exported, out', err) == SingleEntry(cache.sha, cache.rows, info, mk, codec, out)
  {
    var got := cache.Get(info.matrixValues);
    if got.Failure? {
      return false, out, Some(CacheFailure(got.error));
    }
    if got.value.None? {
      return false, out, None;
    }
    var entry := got.value.value;
    if |entry.objects| == 0 {
      return false, out, None;
    }
    var path := BuildEntryPath(info.matrixValues, mk);
    var e := entry.Data();
    if out.DirOut? {
      var t', werr := WriteEntryToDir(out.tree, path, info, e, codec);
      return werr.None?, DirOut(t'), werr;
    } else {
      var z', werr := WriteEntryToZip(out.members, path, info, e, codec);
      return werr.None?, ZipOut(z'), werr;
    }
  }

  /** How far an export got: entries exported, the output, and the failure
      that stopped it. */
  datatype ExportProgress = ExportProgress(count: nat, out: Output, err: Option<ExportError>)

  /** The loop of `export_entries` over listed entries, from `start`. */
  function ExportFrom(sha: Sha256, rows: seq<Row>, entries: seq<Listed>, mk: Option<seq<string>>, codec: JsonCodec, start: Output)
    : (r: ExportProgress)
    ensures SameKind(r.out, start)
    decreases |entries|
  {
    if |entries| == 0 then ExportProgress(0, start, None)
    else
      var prev := ExportFrom(sha, rows, entries[..|entries| - 1], mk, codec, start);
      if prev.err.Some? then prev
      else
        var s := SingleEntry(sha, rows, entries[|entries| - 1], mk, codec, prev.out);
        ExportProgress(if s.0 then prev.count + 1 else prev.count, s.1, s.2)
  }

  /** Once an entry has failed, later entries change nothing. */
  lemma {:induction false} ExportFromStops(sha: Sha256, rows: seq<Row>, entries: seq<Listed>, more: seq<Listed>,
                                           mk: Option<seq<string>>, codec: JsonCodec, start: Output)
    requires ExportFrom(sha, rows, entries, mk, codec, start).err.Some?
    ensures ExportFrom(sha, rows, entries + more, mk, codec, start) == ExportFrom(sha, rows, entries, mk, codec, start)
    decreases |more|
  {
    if |more| == 0 {
      assert entries + more == entries;
    } else {
      ExportFromStops(sha, rows, entries, more[..|more| - 1], mk, codec, start);
      assert (entries + more)[..|entries + more| - 1] == entries + more[..|more| - 1];
    }
  }

  /** One more entry, exported from where the others left off. */
  lemma ExportFromNext(sha: Sha256, rows: seq<Row>, entries: seq<Listed>, i: nat, mk: Option<seq<string>>, codec: JsonCodec,
                       start: Output, count: nat, out: Output, exported: bool, out': Output, err: Option<ExportError>)
    requires i < |entries|
    requires ExportFrom(sha, rows, entries[..i], mk, codec, start) == ExportProgress(count, out, None)
    requires (exported, out', err) == SingleEntry(sha, rows, entries[i], mk, codec, out)
    ensures ExportFrom(sha, rows, entries[..i + 1], mk, codec, start) ==
            ExportProgress(if exported then count + 1 else count, out', err)
  {
    assert entries[..i + 1][..i] == entries[..i];
  }

  /** The export of a prefix that failed, or of all entries, is the export
      of all of them. */
  lemma ExportDone(sha: Sha256, rows: seq<Row>, entries: seq<Listed>, i: nat, mk: Option<seq<string>>, codec: JsonCodec,
                   start: Output)
    requires i <= |entries|
    requires ExportFrom(sha, rows, entries[..i], mk, codec, start).err.None? ==> i == |entries|
    ensures ExportFrom(sha, rows, entries, mk, codec, start) == ExportFrom(sha, rows, entries[..i], mk, codec, start)
  {
    var a, b := entries[..i], entries[i..];
    assert a + b == entries;
    if ExportFrom(sha, rows, a, mk, codec, start).err.Some? {
      ExportFromStops(sha, rows, a, b, mk, codec, start);
    } else {
      assert a == entries;
    }
  }

  /** Output ending in ".zip", in any letter case, is an archive. */
  predicate IsZipPath(p: string)
    ensures IsZipPath(p) ==> |Suffix(BaseName(p))| == 4
  {
    Strings.LowerAscii(Suffix(BaseName(p))) == ".zip"
  }

  /** `Path` drops a trailing "/" or "/." before it takes the suffix, so
      "out.zip/" is an archive as "out.zip" is. */
  lemma ZipPathTrailing(p: string)
    ensures IsZipPath(p + "/") <==> IsZipPath(p)
    ensures IsZipPath(p + "/.") <==> IsZipPath(p)
  {
    TrailingSeparator(p);
  }

  /** Only the last extension of the file name decides, in any letter
      case, whatever directory the file is in. */
  lemma ZipSuffixDecides(dir: string, stem: string, ext: string)
    requires |stem| > 0 && NoSlash(stem)
    requires |ext| > 1 && ext[0] == '.' && NoSlash(ext) && forall j :: 0 < j < |ext| ==> ext[j] != '.'
    ensures IsZipPath(dir + "/" + (stem + ext)) <==> Strings.LowerAscii(ext) == ".zip"
    ensures IsZipPath(stem + ext) <==> Strings.LowerAscii(ext) == ".zip"
  {
    var n := stem + ext;
    assert NoSlash(n) by {
      forall i | 0 <= i < |n| ensures n[i] != '/' {
        if i >= |stem| {
          assert n[i] == ext[i - |stem|];
        }
      }
    }
    SplitLastSlash(dir, n);
    SplitExtension(stem, ext);
  }

  /** `export_entries`: list the entries (failing before any output when the
      cache is closed), then export each into a new archive or into the
      directory tree already at the output path. */
  function ExportAll(connected: bool, sha: Sha256, rows: seq<Row>, outputPath: string, mk: Option<seq<string>>,
                     existing: Tree, codec: JsonCodec): (r: ExportProgress)
    ensures !connected ==> r == ExportProgress(0, Untouched, Some(CacheFailure(NotConnected)))
    ensures connected ==> (r.out.ZipOut? <==> IsZipPath(outputPath)) && (r.out.DirOut? <==> !IsZipPath(outputPath))
  {
    if !connected then ExportProgress(0, Untouched, Some(CacheFailure(NotConnected)))
    else
      var start := if IsZipPath(outputPath) then ZipOut([]) else DirOut(existing);
      ExportFrom(sha, rows, Listing(rows), mk, codec, start)
  }

  /** `export_entries` on a cache handle. */
  method ExportEntries(cache: WorkflowCache, outputPath: string, mk: Option<seq<string>>, existing: Tree, codec: JsonCodec)
    returns (r: ExportProgress)
    ensures r == ExportAll(cache.connected, cache.sha, cache.rows, outputPath, mk, existing, codec)
  {
    var isZip := Strings.LowerAscii(Suffix(BaseName(outputPath))) == ".zip";
    var listed := cache.ListEntries();
    if listed.Failure? {
      return ExportProgress(0, Untouched, Some(CacheFailure(listed.error)));
    }
    var start := if isZip then ZipOut([]) else DirOut(existing);
    r := ExportListed(cache, listed.value, mk, codec, start);
  }

  /** The loop of `export_entries`, stopping at the first failure. */
  method ExportListed(cache: WorkflowCache, entries: seq<Listed>, mk: Option<seq<string>>, codec: JsonCodec, start: Output)
    returns (r: ExportProgress)
    requires cache.connected && (start.DirOut? || start.ZipOut?)
    ensures r == ExportFrom(cache.sha, cache.rows, entries, mk, codec, start)
  {
    var out := start;
    var count := 0;
    var err := None;
    var i := 0;
    while i < |entries| && err.None?
      invariant 0 <= i <= |entries|
      invariant out.DirOut? || out.ZipOut?
      invariant ExportFrom(cache.sha, cache.rows, entries[..i], mk, codec, start) == ExportProgress(count, out, err)
    {
      var exported, out' := false, out;
      exported, out', err := ExportSingleEntry(cache, entries[i], mk, codec, out);
      ExportFromNext(cache.sha, cache.rows, entries, i, mk, codec, start, count, out, exported, out', err);
      if exported {
        count := count + 1;
      }
      out := out';
      i := i + 1;
    }
    ExportDone(cache.sha, cache.rows, entries, i, mk, codec, start);
    return ExportProgress(count, out, err);
  }

  /** The entries `export_entries` writes out: those the cache has, with at
      least one object. */
  function ExportableCount(sha: Sha256, rows: seq<Row>, entries: seq<Listed>): (r: nat)
    ensures r <= |entries|
    decreases |entries|
  {
    if |entries| == 0 then 0
    else
      var rest := ExportableCount(sha, rows, entries[..|entries| - 1]);
      if Skipped(sha, rows, entries[|entries| - 1]) then rest else rest + 1
  }

  /** An export that ran to the end counts exactly the entries that have
      objects. */
  lemma {:induction false} ExportCount(sha: Sha256, rows: seq<Row>, entries: seq<Listed>, mk: Option<seq<string>>,
                                       codec: JsonCodec, start: Output)
    requires ExportFrom(sha, rows, entries, mk, codec, start).err.None?
    ensures ExportFrom(sha, rows, entries, mk, codec, start).count == ExportableCount(sha, rows, entries)
    decreases |entries|
  {
    if |entries| > 0 {
      ExportCount(sha, rows, entries[..|entries| - 1], mk, codec, start);
    }
  }

  /** Extensions differ in their last character, so a file name gives
      back both the object name and the extension. */
  lemma ExtensionsDistinguish(n1: string, t1: string, n2: string, t2: string)
    requires n1 + ExtensionFor(t1) == n2 + ExtensionFor(t2)
    ensures n1 == n2 && ExtensionFor(t1) == ExtensionFor(t2)
  {
    var a, b := ExtensionFor(t1), ExtensionFor(t2);
    var s := n1 + a;
    assert s[|s| - 1] == a[|a| - 1] && s[|s| - 1] == b[|b| - 1];
    LastCharDecides(t1, t2);
    assert s[..|n1|] == n1;
  }

  /** The extensions ".graphml", ".json" and ".dat" end in distinct
      characters. */
  lemma LastCharDecides(t1: string, t2: string)
    requires ExtensionFor(t1)[|ExtensionFor(t1)| - 1] == ExtensionFor(t2)[|ExtensionFor(t2)| - 1]
    ensures ExtensionFor(t1) == ExtensionFor(t2)
  {
  }

  /** The files of one entry have distinct paths when no object's file is
      named like the sidecar. */
  lemma EntryWritesDistinct(path: Path, info: Listed, e: EntryData, codec: JsonCodec)
    requires forall i :: 0 <= i < |e.objects| ==> e.objects[i].0 + ExtensionFor(e.objects[i].1.objType) != META_NAME
    ensures forall i, j :: 0 <= i < j < |EntryWrites(path, info, e, codec)| ==>
      EntryWrites(path, info, e, codec)[i].0 != EntryWrites(path, info, e, codec)[j].0
  {
    var w := EntryWrites(path, info, e, codec);
    var n := |e.objects|;
    forall i, j | 0 <= i < j < |w| ensures w[i].0 != w[j].0 {
      assert w[i].0 == path + [e.objects[i].0 + ExtensionFor(e.objects[i].1.objType)];
      if j < n {
        assert w[j].0 == path + [e.objects[j].0 + ExtensionFor(e.objects[j].1.objType)];
        if w[i].0 == w[j].0 {
          assert w[i].0[|path|] == w[j].0[|path|];
          ExtensionsDistinguish(e.objects[i].0, e.objects[i].1.objType, e.objects[j].0, e.objects[j].1.objType);
        }
      } else {
        assert w[j].0 == path + [META_NAME];
        assert w[i].0[|path|] != w[j].0[|path|];
      }
    }
  }

  /** An entry whose objects all hold text is written as one file per
      object, `<path>/<name><ext>` with its content unchanged, and then the
      sidecar `<path>/_meta.json`, appended to the tree or the archive. */
  lemma EntryExported(out: Output, path: Path, info: Listed, e: EntryData, codec: JsonCodec)
    requires out.DirOut? || out.ZipOut?
    requires forall i :: 0 <= i < |e.objects| ==> e.objects[i].1.content.Some?
    requires forall i :: 0 <= i < |e.objects| ==> e.objects[i].0 + ExtensionFor(e.objects[i].1.objType) != META_NAME
    requires out.DirOut? ==> forall i :: 0 <= i < |e.objects| + 1 ==> EntryWrites(path, info, e, codec)[i].0 !in KeySet(out.tree)
    ensures var w := WriteFiles(out, EntryWrites(path, info, e, codec));
      && w.1.None?
      && var texts := Texts(EntryWrites(path, info, e, codec));
      && |texts| == |e.objects| + 1
      && (forall i :: 0 <= i < |e.objects| ==>
           texts[i] == (path + [e.objects[i].0 + ExtensionFor(e.objects[i].1.objType)], e.objects[i].1.content.value))
      && texts[|e.objects|] == (path + [META_NAME], codec.dumps(Sidecar(info, e.metadata)))
      && (out.DirOut? ==> w.0.DirOut? && w.0.tree == out.tree + texts)
      && (out.ZipOut? ==> w.0 == ZipOut(out.members + seq(|texts|, i requires 0 <= i < |texts| => (Join(texts[i].0), texts[i].1))))
  {
    var files := EntryWrites(path, info, e, codec);
    assert forall i :: 0 <= i < |files| ==> files[i].1.Some?;
    if out.DirOut? {
      EntryWritesDistinct(path, info, e, codec);
      WriteFilesDir(out.tree, files);
    } else {
      WriteFilesZip(out.members, files);
    }
  }

  /** `obj.get(field)` on an object specification. */
  function Field(o: Record, field: string): Option<string> {
    if field in o then o[field] else None
  }

  /** `serialise_objects` keeps an object only when both its type and its
      content are present and non-empty. */
  predicate Kept(o: Record) {
    Field(o, "type").Some? && Field(o, "type").value != "" &&
    Field(o, "content").Some? && Field(o, "content").value != ""
  }

  /** `f"{name}{ext}"` where the name defaults to the type; a name that is
      None formats as "None". */
  function FileNameOf(o: Record): string
    requires Kept(o)
  {
    var t := Field(o, "type").value;
    var name := if "name" in o then o["name"].GetOr("None") else t;
    name + ExtensionFor(t)
  }

  /** The result of `serialise_objects` over the specifications so far. */
  function Serialised(objs: seq<Record>): (r: Dict<string>)
    decreases |objs|
  {
    if |objs| == 0 then []
    else
      var prev := Serialised(objs[..|objs| - 1]);
      var o := objs[|objs| - 1];
      if Kept(o) then Store(prev, FileNameOf(o), Field(o, "content").value) else prev
  }

  /** The file names are exactly those of the kept objects. */
  lemma {:induction false} SerialisedKeys(objs: seq<Record>)
    ensures forall k :: k in KeySet(Serialised(objs)) <==>
      exists i :: 0 <= i < |objs| && Kept(objs[i]) && FileNameOf(objs[i]) == k
    decreases |objs|
  {
    if |objs| > 0 {
      var front := objs[..|objs| - 1];
      SerialisedKeys(front);
      assert forall i :: 0 <= i < |front| ==> front[i] == objs[i];
    }
  }

  /** One more object specification. */
  lemma SerialisedSnoc(objs: seq<Record>, o: Record)
    ensures Serialised(objs + [o]) ==
            if Kept(o) then Store(Serialised(objs), FileNameOf(o), Field(o, "content").value) else Serialised(objs)
  {
    assert (objs + [o])[..|objs|] == objs;
  }

  /** Each file holds the content of the last kept object with its name:
      no content is empty, and a later object overwrites an earlier one. */
  lemma {:induction false} SerialisedLastWins(objs: seq<Record>, i: nat)
    requires i < |objs| && Kept(objs[i])
    requires forall j :: i < j < |objs| && Kept(objs[j]) ==> FileNameOf(objs[j]) != FileNameOf(objs[i])
    ensures Get(Serialised(objs), FileNameOf(objs[i])) == Some(Field(objs[i], "content").value)
    decreases |objs|
  {
    var n := |objs|;
    var front := objs[..n - 1];
    var prev := Serialised(front);
    var k := FileNameOf(objs[i]);
    var last := objs[n - 1];
    assert objs == front + [last];
    SerialisedSnoc(front, last);
    if i < n - 1 {
      assert front[i] == objs[i];
      assert forall j :: i < j < |front| ==> front[j] == objs[j];
      SerialisedLastWins(front, i);
      if Kept(last) {
        PutGet(prev, FileNameOf(last), Field(last, "content").value, k);
      }
    } else {
      PutGet(prev, k, Field(last, "content").value, k);
    }
  }

  /** `serialise_objects`: the loop that fills the result. */
  method SerialiseObjects(objs: seq<Record>) returns (r: Dict<string>)
    ensures r == Serialised(objs)
  {
    r := [];
    var i := 0;
    while i < |objs|
      invariant 0 <= i <= |objs|
      invariant r == Serialised(objs[..i])
    {
      assert objs[..i + 1][..i] == objs[..i];
      var o := objs[i];
      var objType := Field(o, "type");
      var name := if "name" in o then o["name"].GetOr("None") else objType.GetOr("None");
      var content := Field(o, "content");
      if objType.Some? && objType.value != "" && content.Some? && content.value != "" {
        r := Store(r, name + ExtensionFor(objType.value), content.value);
      }
      i := i + 1;
    }
    assert objs[..i] == objs;
  }

  /** `store_action_result`: the legacy entry point. Without a cache it
      stores nothing; with one it is `put_from_action` under the context's
      matrix values `kd`. */
  method StoreActionResult(cache: WorkflowCache?, kd: MatrixValues, md: Metadata, objs: seq<Record>, now: string)
    returns (r: Option<Result<string, CacheError>>)
    requires cache != null ==> cache.Valid()
    modifies if cache != null then {cache} else {}
    ensures cache == null ==> r.None?
    ensures cache != null ==> r.Some? && cache.Valid() && cache.connected == old(cache.connected)
    ensures cache != null && old(cache.connected) ==>
      var p := CachePutFromAction(cache.sha, old(cache.rows), kd, md, objs, now);
      r == Some(if p.Success? then Success(p.value.0) else Failure(p.error)) &&
      cache.rows == if p.Success? then p.value.1 else old(cache.rows)
    ensures cache != null && !old(cache.connected) ==>
      cache.rows == old(cache.rows) && r.value.Failure? &&
      (EntryFromActionResult(md, objs).Success? ==> r.value.error == NotConnected)
  {
    if cache == null {
      return None;
    }
    var stored := cache.PutFromAction(kd, md, objs, now);
    r := Some(stored);
  }
}
