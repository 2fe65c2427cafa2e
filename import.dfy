/**
 * import_.py: reading exported entries back into a cache. Every
 * `_meta.json` sidecar marks an entry directory; its matrix values become
 * the key, its metadata the entry's metadata, and each other file directly
 * in that directory an object named by the file's stem, typed by its
 * extension. Entries that end up with no object are not stored.
 */
module Import {
  import opened Wrappers
  import opened Assoc
  import Strings
  import opened CacheKey
  import opened Entry
  import opened Cache
  import opened Files
  import opened Export

  /** `{v: k for k, v in table.items()}`. */
  function Inverted(table: seq<(string, string)>): (r: seq<(string, string)>)
    ensures |r| == |table| && forall i :: 0 <= i < |r| ==> r[i] == (table[i].1, table[i].0)
  {
    if |table| == 0 then [] else [(table[0].1, table[0].0)] + Inverted(table[1..])
  }

  /** `EXTENSION_TYPES`. */
  const EXTENSION_TYPES: seq<(string, string)> := Inverted(TYPE_EXTENSIONS)

  /** `get_type_for_extension`: the table's type, "dat" otherwise. */
  function TypeFor(ext: string): (r: string)
    ensures ext == ".graphml" ==> r == "graphml"
    ensures ext == ".json" ==> r == "json"
    ensures ext != ".graphml" && ext != ".json" ==> r == "dat"
  {
    assert EXTENSION_TYPES == [(".graphml", "graphml"), (".json", "json")];
    assert forall p :: p in EXTENSION_TYPES ==> p == (".graphml", "graphml") || p == (".json", "json");
    assert DistinctKeys(EXTENSION_TYPES);
    Get(EXTENSION_TYPES, ext).GetOr("dat")
  }

  /** The two tables are inverse on the types they name; every other type
      is written as ".dat" and read back as "dat". */
  lemma TypeExtensionInverse(t: string)
    ensures t == "graphml" || t == "json" ==> TypeFor(ExtensionFor(t)) == t
    ensures t != "graphml" && t != "json" ==> TypeFor(ExtensionFor(t)) == "dat"
    ensures TypeFor(ExtensionFor(t)) == t <==> t == "graphml" || t == "json" || t == "dat"
  {
  }

  /** Why an import stopped: no input, a sidecar that is not a JSON object,
      or a failing `put`. */
  datatype ImportError = FileNotFound | NotJson(name: string) | PutFailure(err: CacheError)

  /** One entry directory as import finds it: the sidecar's name and text,
      and the other files in it (file name and text), in the order read. */
  datatype Group = Group(metaName: string, metaText: string, files: seq<(string, string)>)

  /** The object a file becomes: named by its stem, typed by its suffix,
      holding its text. */
  function ObjectOf(file: (string, string)): (r: (string, CacheObject))
  {
    (Stem(file.0), CacheObject(TypeFor(Suffix(file.0)), Some(file.1)))
  }

  /** The objects of the files, in order. */
  function FileObjects(files: seq<(string, string)>): (r: seq<(string, CacheObject)>)
    ensures |r| == |files| && forall i :: 0 <= i < |r| ==> r[i] == ObjectOf(files[i])
  {
    seq(|files|, i requires 0 <= i < |files| => ObjectOf(files[i]))
  }

  /** `entry.objects[name] = CacheObject(...)` for each file in turn. */
  function GroupObjects(files: seq<(string, string)>): (r: Objects)
  {
    FromPairs(FileObjects(files))
  }

  /** The object names are exactly the files' stems. */
  lemma GroupObjectsKeys(files: seq<(string, string)>)
    ensures forall k :: k in KeySet(GroupObjects(files)) <==> exists i :: 0 <= i < |files| && Stem(files[i].0) == k
  {
    FromPairsKeys(FileObjects(files));
    forall k | k in KeySet(FileObjects(files)) ensures exists i :: 0 <= i < |files| && Stem(files[i].0) == k {
      var i :| 0 <= i < |files| && FileObjects(files)[i].0 == k;
    }
    forall i | 0 <= i < |files| ensures Stem(files[i].0) in KeySet(FileObjects(files)) {
      assert FileObjects(files)[i].0 == Stem(files[i].0);
    }
  }

  /** When no two files share a stem, the objects are the files', in the
      same order. */
  lemma GroupObjectsDistinct(files: seq<(string, string)>)
    requires forall i, j :: 0 <= i < j < |files| ==> Stem(files[i].0) != Stem(files[j].0)
    ensures GroupObjects(files) == FileObjects(files)
  {
    FromPairsDistinct(FileObjects(files));
  }

  /** A later file with the same stem replaces the earlier object. */
  lemma GroupObjectsLastWins(files: seq<(string, string)>, i: nat)
    requires i < |files|
    requires forall j :: i < j < |files| ==> Stem(files[j].0) != Stem(files[i].0)
    ensures Get(GroupObjects(files), Stem(files[i].0)) == Some(ObjectOf(files[i]).1)
  {
    FromPairsLastWins(FileObjects(files), i);
  }

  /** Adding one more file replaces or appends its object. */
  lemma GroupObjectsSnoc(files: seq<(string, string)>, f: (string, string))
    ensures GroupObjects(files + [f]) == Put(GroupObjects(files), ObjectOf(f).0, ObjectOf(f).1)
  {
    var ps := FileObjects(files + [f]);
    assert ps[..|files|] == FileObjects(files);
    assert ps[|files|] == ObjectOf(f);
    assert GroupObjects(files + [f]) == Store(FromPairs(ps[..|ps| - 1]), ps[|ps| - 1].0, ps[|ps| - 1].1);
  }

  /** How far an import got: entries stored, the cache's rows, and the
      failure that stopped it. */
  datatype ImportProgress = ImportProgress(count: nat, rows: seq<Row>, err: Option<ImportError>)

  /** One entry directory: read the sidecar (matrix values and metadata
      default to empty), build the objects, and `put` them unless there are
      none. Whether it was stored, the rows, and the failure. */
  function ImportGroup(connected: bool, sha: Sha256, rows: seq<Row>, g: Group, codec: JsonCodec, now: string)
    : (r: (bool, seq<Row>, Option<ImportError>))
    ensures r.0 ==> r.2.None?
    ensures !r.0 ==> r.1 == rows
    ensures codec.loads(g.metaText).None? ==> r == (false, rows, Some(NotJson(g.metaName)))
    ensures codec.loads(g.metaText).Some? && |g.files| == 0 ==> r == (false, rows, None)
    ensures codec.loads(g.metaText).Some? && |GroupObjects(g.files)| > 0 && !connected ==>
      r == (false, rows, Some(PutFailure(NotConnected)))
    ensures var doc := codec.loads(g.metaText);
      doc.Some? && |GroupObjects(g.files)| > 0 && connected ==>
        var p := CachePut(sha, rows, doc.value.matrixValues.GetOr([]),
                          EntryData(doc.value.metadata.GetOr(map[]), GroupObjects(g.files)), now);
        r == if p.Success? then (true, p.value.1, None) else (false, rows, Some(PutFailure(p.error)))
  {
    match codec.loads(g.metaText)
    case None => (false, rows, Some(NotJson(g.metaName)))
    case Some(doc) =>
      var objs := GroupObjects(g.files);
      if |objs| == 0 then (false, rows, None)
      else if !connected then (false, rows, Some(PutFailure(NotConnected)))
      else
        match CachePut(sha, rows, doc.matrixValues.GetOr([]), EntryData(doc.metadata.GetOr(map[]), objs), now)
        case Failure(e) => (false, rows, Some(PutFailure(e)))
        case Success(p) => (true, p.1, None)
  }

  /** What importing one entry directory does, from the rows before it:
      whether it was stored, the rows after it, and the failure. */
  type GroupImport = (seq<Row>, Group) -> (bool, seq<Row>, Option<ImportError>)

  /** `ImportGroup` on a given cache, sidecar codec and clock. */
  function Importer(connected: bool, sha: Sha256, codec: JsonCodec, now: string): (step: GroupImport)
    ensures forall rows, g :: step(rows, g) == ImportGroup(connected, sha, rows, g, codec, now)
  {
    (rows: seq<Row>, g: Group) => ImportGroup(connected, sha, rows, g, codec, now)
  }

  /** The entry directories in turn, stopping at the first failure. */
  function ImportGroups(step: GroupImport, rows: seq<Row>, groups: seq<Group>): (r: ImportProgress)
    ensures r.count <= |groups|
    decreases |groups|
  {
    if |groups| == 0 then ImportProgress(0, rows, None)
    else
      var prev := ImportGroups(step, rows, groups[..|groups| - 1]);
      if prev.err.Some? then prev
      else
        var s := step(prev.rows, groups[|groups| - 1]);
        ImportProgress(if s.0 then prev.count + 1 else prev.count, s.1, s.2)
  }

  /** Once an entry has failed, later entries change nothing. */
  lemma {:induction false} ImportGroupsStops(step: GroupImport, rows: seq<Row>, groups: seq<Group>, more: seq<Group>)
    requires ImportGroups(step, rows, groups).err.Some?
    ensures ImportGroups(step, rows, groups + more) == ImportGroups(step, rows, groups)
    decreases |more|
  {
    if |more| == 0 {
      assert groups + more == groups;
    } else {
      ImportGroupsStops(step, rows, groups, more[..|more| - 1]);
      assert (groups + more)[..|groups + more| - 1] == groups + more[..|more| - 1];
    }
  }

  /** A failure within the first `n` entry directories is the failure of
      the whole import. */
  lemma ImportGroupsPrefix(step: GroupImport, rows: seq<Row>, groups: seq<Group>, n: nat)
    requires n <= |groups| && ImportGroups(step, rows, groups[..n]).err.Some?
    ensures ImportGroups(step, rows, groups) == ImportGroups(step, rows, groups[..n])
  {
    assert groups == groups[..n] + groups[n..];
    ImportGroupsStops(step, rows, groups[..n], groups[n..]);
  }

  /** One more entry directory, imported from where the others left off. */
  lemma ImportGroupsNext(step: GroupImport, rows: seq<Row>, groups: seq<Group>, g: Group,
                         count: nat, before: seq<Row>, stored: bool, after: seq<Row>, err: Option<ImportError>)
    requires ImportGroups(step, rows, groups) == ImportProgress(count, before, None)
    requires (stored, after, err) == step(before, g)
    ensures ImportGroups(step, rows, groups + [g]) == ImportProgress(if stored then count + 1 else count, after, err)
  {
    assert (groups + [g])[..|groups|] == groups;
  }

  /** The number of entry directories that have at least one file. */
  function NonEmptyCount(groups: seq<Group>): (r: nat)
    decreases |groups|
  {
    if |groups| == 0 then 0
    else NonEmptyCount(groups[..|groups| - 1]) + if |groups[|groups| - 1].files| > 0 then 1 else 0
  }

  /** An import that ran to the end stored one entry per directory with a
      file: the count is the number of `put` calls. */
  lemma ImportCount(connected: bool, sha: Sha256, rows: seq<Row>, groups: seq<Group>, codec: JsonCodec, now: string)
    requires ImportGroups(Importer(connected, sha, codec, now), rows, groups).err.None?
    ensures ImportGroups(Importer(connected, sha, codec, now), rows, groups).count == NonEmptyCount(groups)
  {
    ImporterStoresNonEmpty(connected, sha, codec, now);
    CountStored(Importer(connected, sha, codec, now), rows, groups);
  }

  /** A step that, when it does not fail, stores exactly the directories
      with a file. */
  ghost predicate StoresNonEmpty(step: GroupImport) {
    forall rows, g :: step(rows, g).2.None? ==> (step(rows, g).0 <==> |g.files| > 0)
  }

  /** `ImportGroup` stores a directory that it does not fail on exactly
      when the directory has a file. */
  lemma ImporterStoresNonEmpty(connected: bool, sha: Sha256, codec: JsonCodec, now: string)
    ensures StoresNonEmpty(Importer(connected, sha, codec, now))
  {
    forall rows, g | ImportGroup(connected, sha, rows, g, codec, now).2.None?
      ensures ImportGroup(connected, sha, rows, g, codec, now).0 <==> |g.files| > 0
    {
      if |g.files| > 0 {
        GroupObjectsKeys(g.files);
        assert Stem(g.files[0].0) in KeySet(GroupObjects(g.files));
      }
    }
  }

  /** With such a step, an import that ran to the end counts the
      directories with a file. */
  lemma {:induction false} CountStored(step: GroupImport, rows: seq<Row>, groups: seq<Group>)
    requires StoresNonEmpty(step) && ImportGroups(step, rows, groups).err.None?
    ensures ImportGroups(step, rows, groups).count == NonEmptyCount(groups)
    decreases |groups|
  {
    if |groups| > 0 {
      CountStored(step, rows, groups[..|groups| - 1]);
    }
  }

  /** Nothing is stored into a closed cache: the rows stay as they were. */
  lemma {:induction false} ImportClosedStoresNothing(sha: Sha256, rows: seq<Row>, groups: seq<Group>, codec: JsonCodec, now: string)
    ensures ImportGroups(Importer(false, sha, codec, now), rows, groups).rows == rows
    ensures ImportGroups(Importer(false, sha, codec, now), rows, groups).count == 0
    decreases |groups|
  {
    if |groups| > 0 {
      ImportClosedStoresNothing(sha, rows, groups[..|groups| - 1], codec, now);
    }
  }

  // ---------------------------------------------------------------------
  // Directory input

  /** A file named `_meta.json`, at any depth (`rglob("_meta.json")`). */
  predicate IsMetaFile(p: Path) {
    |p| > 0 && p[|p| - 1] == META_NAME
  }

  /** A file is a sidecar exactly when its path's name is "_meta.json", the
      pattern `rglob` matches against. */
  lemma MetaFileName(p: Path)
    requires |p| > 0 && NoSlash(p[|p| - 1]) && p[|p| - 1] != "" && p[|p| - 1] != "."
    ensures IsMetaFile(p) <==> BaseName(Join(p)) == META_NAME
  {
    JoinBaseName(p);
  }

  /** A file directly inside `dir` (`dir.iterdir()` without
      sub-directories), other than the sidecar. */
  predicate InDir(p: Path, dir: Path) {
    |p| == |dir| + 1 && p[..|dir|] == dir && p[|dir|] != META_NAME
  }

  /** The files directly inside `dir`, name and text, in listing order. */
  function DirFiles(t: seq<(Path, string)>, dir: Path): (r: seq<(string, string)>)
    ensures |r| <= |t|
    decreases |t|
  {
    if |t| == 0 then []
    else
      var prev := DirFiles(t[..|t| - 1], dir);
      var p := t[|t| - 1].0;
      var c := t[|t| - 1].1;
      if InDir(p, dir) then prev + [(p[|dir|], c)] else prev
  }

  /** The entry directories of `ps`, each read against the whole tree. */
  function DirGroups(tree: Tree, ps: seq<(Path, string)>): (r: seq<Group>)
    ensures |r| <= |ps|
    decreases |ps|
  {
    if |ps| == 0 then []
    else
      var prev := DirGroups(tree, ps[..|ps| - 1]);
      var p := ps[|ps| - 1].0;
      var c := ps[|ps| - 1].1;
      if IsMetaFile(p) then prev + [Group(Join(p), c, DirFiles(tree, p[..|p| - 1]))] else prev
  }

  /** `_import_from_dir`. */
  function ImportDir(connected: bool, sha: Sha256, rows: seq<Row>, input: Option<Tree>, codec: JsonCodec, now: string)
    : (r: ImportProgress)
    ensures input.None? ==> r == ImportProgress(0, rows, Some(FileNotFound))
  {
    match input
    case None => ImportProgress(0, rows, Some(FileNotFound))
    case Some(t) => ImportGroups(Importer(connected, sha, codec, now), rows, DirGroups(t, t))
  }

  /** The entry directory a sidecar marks, read against the whole tree. */
  function MetaGroup(tree: Tree, f: (Path, string)): Group
    requires IsMetaFile(f.0)
  {
    Group(Join(f.0), f.1, DirFiles(tree, f.0[..|f.0| - 1]))
  }

  /** Each sidecar yields its entry directory, in listing order, and
      nothing else does. */
  lemma {:induction false} DirGroupsSidecars(tree: Tree, ps: seq<(Path, string)>)
    ensures forall i :: 0 <= i < |ps| && IsMetaFile(ps[i].0) ==> MetaGroup(tree, ps[i]) in DirGroups(tree, ps)
    ensures forall g :: g in DirGroups(tree, ps) ==> exists i :: 0 <= i < |ps| && IsMetaFile(ps[i].0) && g == MetaGroup(tree, ps[i])
    decreases |ps|
  {
    if |ps| > 0 {
      var front := ps[..|ps| - 1];
      DirGroupsSidecars(tree, front);
      assert forall i :: 0 <= i < |front| ==> front[i] == ps[i];
    }
  }

  /** The files read for a directory are exactly the non-sidecar files
      directly inside it, with their text. */
  lemma {:induction false} DirFilesExact(t: seq<(Path, string)>, dir: Path)
    ensures forall f :: f in DirFiles(t, dir) <==> exists i :: 0 <= i < |t| && InDir(t[i].0, dir) && f == (t[i].0[|dir|], t[i].1)
    decreases |t|
  {
    if |t| > 0 {
      DirFilesExact(t[..|t| - 1], dir);
      assert forall i :: 0 <= i < |t| - 1 ==> t[..|t| - 1][i] == t[i];
    }
  }

  /** One more file of the listing, read against `dir`. */
  lemma DirFilesSnoc(t: seq<(Path, string)>, j: nat, dir: Path)
    requires j < |t|
    ensures DirFiles(t[..j + 1], dir) ==
      if InDir(t[j].0, dir) then DirFiles(t[..j], dir) + [(t[j].0[|dir|], t[j].1)] else DirFiles(t[..j], dir)
  {
    assert t[..j + 1][..j] == t[..j];
  }

  /** One more file of the listing: a sidecar adds its directory. */
  lemma DirGroupsSnoc(tree: Tree, ps: seq<(Path, string)>, i: nat)
    requires i < |ps|
    ensures DirGroups(tree, ps[..i + 1]) ==
      if IsMetaFile(ps[i].0) then DirGroups(tree, ps[..i]) + [MetaGroup(tree, ps[i])] else DirGroups(tree, ps[..i])
  {
    assert ps[..i + 1][..i] == ps[..i];
  }

  /** `entry.add_object` for one more file read: its stem, type and text. */
  method AddFile(entry: CacheEntry, ghost files: seq<(string, string)>, f: (string, string))
    requires entry.objects == GroupObjects(files)
    modifies entry
    ensures entry.objects == GroupObjects(files + [f]) && entry.metadata == old(entry.metadata)
  {
    var o := ObjectOf(f);
    GroupObjectsSnoc(files, f);
    entry.AddObject(o.0, o.1.objType, o.1.content);
  }

  /** A fresh entry holding `md` and the files directly inside `dir`, as
      `_import_from_dir` builds it. */
  method EntryFromDir(t: Tree, dir: Path, md: Metadata) returns (entry: CacheEntry)
    ensures fresh(entry) && entry.Data() == EntryData(md, GroupObjects(DirFiles(t, dir)))
  {
    entry := new CacheEntry.WithMetadata(md);
    var j := 0;
    while j < |t|
      invariant 0 <= j <= |t|
      invariant fresh(entry) && entry.metadata == md
      invariant entry.objects == GroupObjects(DirFiles(t[..j], dir))
    {
      DirFilesSnoc(t, j, dir);
      var p := t[j].0;
      if InDir(p, dir) {
        AddFile(entry, DirFiles(t[..j], dir), (p[|dir|], t[j].1));
      }
      j := j + 1;
    }
    assert t[..j] == t;
  }

  /** Reading stops at a failure or at the end of the listing; either way
      the part read decides the whole import. */
  lemma DirDone(step: GroupImport, rows: seq<Row>, t: Tree, i: nat)
    requires i <= |t|
    requires ImportGroups(step, rows, DirGroups(t, t[..i])).err.None? ==> i == |t|
    ensures ImportGroups(step, rows, DirGroups(t, t)) == ImportGroups(step, rows, DirGroups(t, t[..i]))
  {
    var a, b := t[..i], t[i..];
    assert a + b == t;
    if ImportGroups(step, rows, DirGroups(t, a)).err.Some? {
      DirGroupsAppend(t, a, b);
      ImportGroupsStops(step, rows, DirGroups(t, a), DirGroups(t, b));
    } else {
      assert a == t;
    }
  }

  /** The `put` of one entry directory whose sidecar parsed. */
  method PutGroup(cache: WorkflowCache, ghost g: Group, doc: MetaDoc, entry: CacheEntry, codec: JsonCodec, now: string)
    returns (stored: bool, err: Option<ImportError>)
    requires cache.Valid() && codec.loads(g.metaText) == Some(doc)
    requires entry.Data() == EntryData(doc.metadata.GetOr(map[]), GroupObjects(g.files))
    modifies cache
    ensures cache.Valid() && cache.connected == old(cache.connected)
    ensures (stored, cache.rows, err) == ImportGroup(old(cache.connected), cache.sha, old(cache.rows), g, codec, now)
  {
    if |entry.objects| == 0 {
      return false, None;
    }
    var put := cache.Put(doc.matrixValues.GetOr([]), entry, now);
    if put.Failure? {
      return false, Some(PutFailure(put.error));
    }
    return true, None;
  }

  /** The body of `_import_from_dir`'s loop for one sidecar: read it,
      build the entry from the files beside it, and `put` it unless it has
      no objects. */
  method ImportOneDir(cache: WorkflowCache, t: Tree, f: (Path, string), ghost g: Group, codec: JsonCodec, now: string)
    returns (stored: bool, err: Option<ImportError>)
    requires cache.Valid() && IsMetaFile(f.0) && g == MetaGroup(t, f)
    modifies cache
    ensures cache.Valid() && cache.connected == old(cache.connected)
    ensures (stored, cache.rows, err) == ImportGroup(old(cache.connected), cache.sha, old(cache.rows), g, codec, now)
  {
    var doc := codec.loads(f.1);
    if doc.None? {
      return false, Some(NotJson(Join(f.0)));
    }
    var entry := EntryFromDir(t, f.0[..|f.0| - 1], doc.value.metadata.GetOr(map[]));
    stored, err := PutGroup(cache, g, doc.value, entry, codec, now);
  }

  /** `_import_from_dir` on a cache handle: for each sidecar, in listing
      order, build a fresh entry from the files beside it and `put` it. */
  method ImportFromDir(cache: WorkflowCache, input: Option<Tree>, codec: JsonCodec, now: string)
    returns (count: nat, err: Option<ImportError>)
    requires cache.Valid()
    modifies cache
    ensures cache.Valid() && cache.connected == old(cache.connected)
    ensures ImportDir(old(cache.connected), cache.sha, old(cache.rows), input, codec, now) == ImportProgress(count, cache.rows, err)
  {
    if input.None? {
      return 0, Some(FileNotFound);
    }
    ghost var read;
    count, err, read := ImportSidecars(cache, input.value, codec, now);
    DirDone(Importer(old(cache.connected), cache.sha, codec, now), old(cache.rows), input.value, read);
  }

  /** The loop of `_import_from_dir` over the sidecars of an existing
      directory. */
  method ImportSidecars(cache: WorkflowCache, t: Tree, codec: JsonCodec, now: string)
    returns (count: nat, err: Option<ImportError>, ghost read: nat)
    requires cache.Valid()
    modifies cache
    ensures cache.Valid() && cache.connected == old(cache.connected)
    ensures read <= |t| && (err.None? ==> read == |t|)
    ensures ImportGroups(Importer(old(cache.connected), cache.sha, codec, now), old(cache.rows), DirGroups(t, t[..read])) == ImportProgress(count, cache.rows, err)
  {
    ghost var connected, rows0 := cache.connected, cache.rows;
    count, err := 0, None;
    var i := 0;
    while i < |t| && err.None?
      invariant 0 <= i <= |t|
      invariant cache.Valid() && cache.connected == connected
      invariant ImportGroups(Importer(connected, cache.sha, codec, now), rows0, DirGroups(t, t[..i])) == ImportProgress(count, cache.rows, err)
    {
      count, err := ImportSidecarAt(cache, t, i, codec, now, rows0, count);
      i := i + 1;
    }
    read := i;
  }

  /** One turn of that loop: the file at `i`, when it is a sidecar. */
  method ImportSidecarAt(cache: WorkflowCache, t: Tree, i: nat, codec: JsonCodec, now: string, ghost rows0: seq<Row>, count: nat)
    returns (count': nat, err: Option<ImportError>)
    requires cache.Valid() && i < |t|
    requires ImportGroups(Importer(cache.connected, cache.sha, codec, now), rows0, DirGroups(t, t[..i])) == ImportProgress(count, cache.rows, None)
    modifies cache
    ensures cache.Valid() && cache.connected == old(cache.connected)
    ensures ImportGroups(Importer(cache.connected, cache.sha, codec, now), rows0, DirGroups(t, t[..i + 1])) == ImportProgress(count', cache.rows, err)
  {
    DirGroupsSnoc(t, t, i);
    if !IsMetaFile(t[i].0) {
      return count, None;
    }
    var g := MetaGroup(t, t[i]);
    ghost var before := cache.rows;
    var stored;
    stored, err := ImportOneDir(cache, t, t[i], g, codec, now);
    ImportGroupsNext(Importer(cache.connected, cache.sha, codec, now), rows0, DirGroups(t, t[..i]), g, count, before, stored, cache.rows, err);
    count' := if stored then count + 1 else count;
  }

  /** Reading the listing in two parts finds the directories of each part
      in turn. */
  lemma {:induction false} DirGroupsAppend(tree: Tree, a: seq<(Path, string)>, b: seq<(Path, string)>)
    ensures DirGroups(tree, a + b) == DirGroups(tree, a) + DirGroups(tree, b)
    decreases |b|
  {
    if |b| == 0 {
      assert a + b == a;
    } else {
      DirGroupsAppend(tree, a, b[..|b| - 1]);
      assert (a + b)[..|a + b| - 1] == a + b[..|b| - 1];
    }
  }

  // ---------------------------------------------------------------------
  // Archive input

  /** `dirs_files`: the member names that do not end in "/", grouped by
      their parent directory, directories in order of first appearance. */
  function Grouped(z: Zip): (r: Dict<seq<string>>)
    decreases |z|
  {
    if |z| == 0 then []
    else
      var d := Grouped(z[..|z| - 1]);
      var name := z[|z| - 1].0;
      if Strings.EndsWith(name, "/") then d
      else Store(d, Parent(name), Get(d, Parent(name)).GetOr([]) + [name])
  }

  /** The names of the files directly inside `dir`, in archive order. */
  function NamesIn(z: Zip, dir: string): (r: seq<string>)
    decreases |z|
  {
    if |z| == 0 then []
    else
      var prev := NamesIn(z[..|z| - 1], dir);
      var name := z[|z| - 1].0;
      if !Strings.EndsWith(name, "/") && Parent(name) == dir then prev + [name] else prev
  }

  /** The grouping lists each directory's files, and a directory without
      files reads as the empty list. */
  lemma {:induction false} GroupedNamesIn(z: Zip, dir: string)
    ensures Get(Grouped(z), dir).GetOr([]) == NamesIn(z, dir)
    decreases |z|
  {
    if |z| > 0 {
      var d := Grouped(z[..|z| - 1]);
      var name := z[|z| - 1].0;
      GroupedNamesIn(z[..|z| - 1], dir);
      if !Strings.EndsWith(name, "/") {
        PutGet(d, Parent(name), Get(d, Parent(name)).GetOr([]) + [name], dir);
      }
    }
  }

  /** Every name read for `dir` is a file member directly inside it. */
  lemma {:induction false} NamesInSound(z: Zip, dir: string)
    ensures forall n :: n in NamesIn(z, dir) ==>
      !Strings.EndsWith(n, "/") && Parent(n) == dir && exists i :: 0 <= i < |z| && z[i].0 == n
    decreases |z|
  {
    if |z| > 0 {
      var zf := z[..|z| - 1];
      NamesInSound(zf, dir);
      forall n | n in NamesIn(z, dir)
        ensures exists i :: 0 <= i < |z| && z[i].0 == n
      {
        if n in NamesIn(zf, dir) {
          var i :| 0 <= i < |zf| && zf[i].0 == n;
          assert z[i] == zf[i];
        } else {
          assert z[|z| - 1].0 == n;
        }
      }
    }
  }

  /** One more member keeps the names read before it, and adds itself
      when it is a file directly inside `dir`. */
  lemma NamesInGrows(z: Zip, dir: string)
    requires |z| > 0
    ensures forall n :: n in NamesIn(z[..|z| - 1], dir) ==> n in NamesIn(z, dir)
    ensures !Strings.EndsWith(z[|z| - 1].0, "/") && Parent(z[|z| - 1].0) == dir ==> z[|z| - 1].0 in NamesIn(z, dir)
  {
  }

  /** Every file member directly inside `dir` is read for it. */
  lemma {:induction false} NamesInComplete(z: Zip, dir: string)
    ensures forall i :: 0 <= i < |z| && !Strings.EndsWith(z[i].0, "/") && Parent(z[i].0) == dir ==>
      z[i].0 in NamesIn(z, dir)
    decreases |z|
  {
    if |z| > 0 {
      var zf := z[..|z| - 1];
      NamesInComplete(zf, dir);
      NamesInGrows(z, dir);
      forall i | 0 <= i < |z| && !Strings.EndsWith(z[i].0, "/") && Parent(z[i].0) == dir
        ensures z[i].0 in NamesIn(z, dir)
      {
        if i < |zf| {
          assert zf[i] == z[i];
        }
      }
    }
  }

  /** The names read for `dir` are exactly the archive's file members
      directly inside it. */
  lemma NamesInExact(z: Zip, dir: string)
    ensures forall n :: n in NamesIn(z, dir) <==>
      exists i :: 0 <= i < |z| && z[i].0 == n && !Strings.EndsWith(n, "/") && Parent(n) == dir
  {
    NamesInSound(z, dir);
    NamesInComplete(z, dir);
  }

  /** The files of a directory, as name and text, leaving out its sidecar. */
  function ZipDirFiles(z: Zip, names: seq<string>): (r: seq<(string, string)>)
    ensures |r| <= |names|
    decreases |names|
  {
    if |names| == 0 then []
    else
      var prev := ZipDirFiles(z, names[..|names| - 1]);
      var n := names[|names| - 1];
      if BaseName(n) == META_NAME then prev else prev + [(BaseName(n), ZipRead(z, n).GetOr(""))]
  }

  /** One more name of the directory read. */
  lemma ZipDirFilesSnoc(z: Zip, names: seq<string>, j: nat)
    requires j < |names|
    ensures ZipDirFiles(z, names[..j + 1]) ==
      if BaseName(names[j]) == META_NAME then ZipDirFiles(z, names[..j])
      else ZipDirFiles(z, names[..j]) + [(BaseName(names[j]), ZipRead(z, names[j]).GetOr(""))]
  {
    assert names[..j + 1][..j] == names[..j];
  }

  /** A file is read exactly when its name is listed and is not the
      sidecar's. */
  lemma {:induction false} ZipDirFilesExact(z: Zip, names: seq<string>)
    ensures forall f :: f in ZipDirFiles(z, names) <==>
      exists i :: 0 <= i < |names| && BaseName(names[i]) != META_NAME && f == (BaseName(names[i]), ZipRead(z, names[i]).GetOr(""))
    decreases |names|
  {
    if |names| > 0 {
      ZipDirFilesExact(z, names[..|names| - 1]);
      assert forall i :: 0 <= i < |names| - 1 ==> names[..|names| - 1][i] == names[i];
    }
  }

  /** Which member names mark an entry directory. As written, any name
      ending in "_meta.json"; the evident intent, a file named
      "_meta.json" exactly, as `rglob` finds for a directory. */
  predicate SidecarName(name: string, asWritten: bool) {
    if asWritten then Strings.EndsWith(name, META_NAME) else BaseName(name) == META_NAME
  }

  /** The entry directory a sidecar marks: the sidecar's name and text,
      and the files grouped under its directory. */
  function ZipGroup(z: Zip, sidecar: (string, string)): Group {
    Group(sidecar.0, ZipRead(z, sidecar.0).GetOr(""), ZipDirFiles(z, Get(Grouped(z), sidecar.1).GetOr([])))
  }

  /** A member's name, and the directory it marks when it is a sidecar. */
  type Mark = (string, Option<string>)

  function MarkOf(name: string, asWritten: bool): Mark {
    (name, if SidecarName(name, asWritten) then Some(Parent(name)) else None)
  }

  /** The marks of the members, in archive order. */
  function Marks(ms: seq<(string, string)>, asWritten: bool): (r: seq<Mark>)
    ensures |r| == |ms| && forall k :: 0 <= k < |ms| ==> r[k] == MarkOf(ms[k].0, asWritten)
  {
    seq(|ms|, k requires 0 <= k < |ms| => MarkOf(ms[k].0, asWritten))
  }

  /** The sidecars taken so far (name and directory), and
      `processed_dirs`. */
  datatype Scan = Scan(taken: seq<(string, string)>, processed: set<string>)

  /** The scan of `_import_from_zip`: a sidecar whose directory was not
      processed yet is taken, and its directory processed. */
  function FirstPerDir(ks: seq<Mark>): (r: Scan)
    decreases |ks|
  {
    if |ks| == 0 then Scan([], {})
    else
      var prev := FirstPerDir(ks[..|ks| - 1]);
      var k := ks[|ks| - 1];
      if k.1.None? || k.1.value in prev.processed then prev
      else Scan(prev.taken + [(k.0, k.1.value)], prev.processed + {k.1.value})
  }

  /** The scan over an archive's members. */
  function ZipScan(ms: seq<(string, string)>, asWritten: bool): Scan {
    FirstPerDir(Marks(ms, asWritten))
  }

  /** The entry directories the sidecars taken mark. */
  function GroupsOf(z: Zip, taken: seq<(string, string)>): (r: seq<Group>)
    ensures |r| == |taken| && forall i :: 0 <= i < |r| ==> r[i] == ZipGroup(z, taken[i])
  {
    seq(|taken|, i requires 0 <= i < |taken| => ZipGroup(z, taken[i]))
  }

  /** The entry directories an archive holds, under either sidecar test. */
  function ZipGroups(z: Zip, asWritten: bool): seq<Group> {
    GroupsOf(z, ZipScan(z, asWritten).taken)
  }

  /** One more mark scanned. */
  lemma FirstPerDirSnoc(ks: seq<Mark>, i: nat)
    requires i < |ks|
    ensures FirstPerDir(ks[..i + 1]) ==
      var prev := FirstPerDir(ks[..i]);
      if ks[i].1.None? || ks[i].1.value in prev.processed then prev
      else Scan(prev.taken + [(ks[i].0, ks[i].1.value)], prev.processed + {ks[i].1.value})
  {
    assert ks[..i + 1][..i] == ks[..i];
  }

  /** Every sidecar taken comes from a mark. */
  lemma {:induction false} FirstPerDirFound(ks: seq<Mark>)
    ensures forall i :: 0 <= i < |FirstPerDir(ks).taken| ==>
      exists k :: 0 <= k < |ks| && ks[k] == (FirstPerDir(ks).taken[i].0, Some(FirstPerDir(ks).taken[i].1))
    decreases |ks|
  {
    if |ks| > 0 {
      var front := ks[..|ks| - 1];
      FirstPerDirFound(front);
      var prev, r := FirstPerDir(front), FirstPerDir(ks);
      var last := ks[|ks| - 1];
      forall i | 0 <= i < |r.taken| ensures exists k :: 0 <= k < |ks| && ks[k] == (r.taken[i].0, Some(r.taken[i].1)) {
        if i < |prev.taken| {
          assert r.taken[i] == prev.taken[i];
          var k :| 0 <= k < |front| && front[k] == (prev.taken[i].0, Some(prev.taken[i].1));
          assert ks[k] == front[k];
        } else {
          assert r.taken == prev.taken + [(last.0, last.1.value)];
          assert ks[|ks| - 1] == (r.taken[i].0, Some(r.taken[i].1));
        }
      }
    } else {
      assert FirstPerDir(ks).taken == [];
    }
  }

  /** Each directory is taken once, and the processed set holds exactly the
      directories taken. */
  lemma {:induction false} FirstPerDirOnce(ks: seq<Mark>)
    ensures forall i, j :: 0 <= i < j < |FirstPerDir(ks).taken| ==> FirstPerDir(ks).taken[i].1 != FirstPerDir(ks).taken[j].1
    ensures forall d :: d in FirstPerDir(ks).processed <==> exists i :: 0 <= i < |FirstPerDir(ks).taken| && FirstPerDir(ks).taken[i].1 == d
    decreases |ks|
  {
    if |ks| > 0 {
      var front := ks[..|ks| - 1];
      FirstPerDirOnce(front);
      var prev, r := FirstPerDir(front), FirstPerDir(ks);
      var k := ks[|ks| - 1];
      if k.1.None? || k.1.value in prev.processed {
        assert r == prev;
      } else {
        assert r.taken == prev.taken + [(k.0, k.1.value)] && r.processed == prev.processed + {k.1.value};
        assert r.taken[|prev.taken|].1 == k.1.value;
        assert forall i :: 0 <= i < |prev.taken| ==> r.taken[i] == prev.taken[i];
      }
    }
  }

  /** No directory is missed: every marked directory has been processed. */
  lemma {:induction false} FirstPerDirCovers(ks: seq<Mark>)
    ensures forall k :: 0 <= k < |ks| && ks[k].1.Some? ==> ks[k].1.value in FirstPerDir(ks).processed
    decreases |ks|
  {
    if |ks| > 0 {
      var front := ks[..|ks| - 1];
      FirstPerDirCovers(front);
      assert forall k :: 0 <= k < |front| ==> front[k] == ks[k];
    }
  }

  /** The sidecars taken from a prefix of the marks start those taken
      from all of them. */
  lemma {:induction false} FirstPerDirPrefix(ks: seq<Mark>, j: nat)
    requires j <= |ks|
    ensures var a := FirstPerDir(ks[..j]).taken;
            var b := FirstPerDir(ks).taken;
            |a| <= |b| && b[..|a|] == a
    decreases |ks| - j
  {
    if j < |ks| {
      FirstPerDirPrefix(ks, j + 1);
      FirstPerDirSnoc(ks, j);
      var a, a' := FirstPerDir(ks[..j]).taken, FirstPerDir(ks[..j + 1]).taken;
      var b := FirstPerDir(ks).taken;
      assert |a| <= |a'| && a'[..|a|] == a;
      assert b[..|a|] == b[..|a'|][..|a|];
    } else {
      assert ks[..j] == ks;
    }
  }

  /** The sidecars taken from an archive are members whose names match,
      each paired with its own directory; no two share a directory, and
      every matching member's directory is processed. */
  lemma ZipScanSidecars(ms: seq<(string, string)>, asWritten: bool)
    ensures forall i :: 0 <= i < |ZipScan(ms, asWritten).taken| ==>
      var t := ZipScan(ms, asWritten).taken[i];
      SidecarName(t.0, asWritten) && t.1 == Parent(t.0) && exists k :: 0 <= k < |ms| && ms[k].0 == t.0
    ensures forall i, j :: 0 <= i < j < |ZipScan(ms, asWritten).taken| ==>
      ZipScan(ms, asWritten).taken[i].1 != ZipScan(ms, asWritten).taken[j].1
    ensures forall k :: 0 <= k < |ms| && SidecarName(ms[k].0, asWritten) ==> Parent(ms[k].0) in ZipScan(ms, asWritten).processed
  {
    var ks := Marks(ms, asWritten);
    FirstPerDirFound(ks);
    FirstPerDirOnce(ks);
    FirstPerDirCovers(ks);
    assert forall k :: 0 <= k < |ms| && SidecarName(ms[k].0, asWritten) ==> ks[k].1 == Some(Parent(ms[k].0));
  }

  /** `_import_from_zip`: FileNotFound for a missing archive, otherwise
      each entry directory in turn. With `asWritten` the sidecars are the
      members whose names end in "_meta.json", as the source tests them;
      without it, the members named "_meta.json", as intended. */
  function ImportZip(connected: bool, sha: Sha256, rows: seq<Row>, input: Option<Zip>, codec: JsonCodec, now: string,
                     asWritten: bool)
    : (r: ImportProgress)
    ensures input.None? ==> r == ImportProgress(0, rows, Some(FileNotFound))
  {
    match input
    case None => ImportProgress(0, rows, Some(FileNotFound))
    case Some(z) => ImportGroups(Importer(connected, sha, codec, now), rows, ZipGroups(z, asWritten))
  }

  /** An archive as export writes it for an entry in `dir` holding one
      object whose name ends in "_meta" and whose type is "json": the
      object's file, then the sidecar. */
  function SuffixExample(dir: string, stem: string, objText: string, metaText: string): Zip {
    [(dir + "/" + (stem + META_NAME), objText), (dir + "/" + META_NAME, metaText)]
  }

  /** The object's file matches only as written; the sidecar matches
      either way; both lie in `dir`. */
  lemma SuffixExampleMarks(dir: string, stem: string, objText: string, metaText: string, asWritten: bool)
    requires Normalised(dir) && |stem| > 0 && NoSlash(stem)
    ensures var z := SuffixExample(dir, stem, objText, metaText);
            Marks(z, asWritten) == [(z[0].0, if asWritten then Some(dir) else None), (z[1].0, Some(dir))]
  {
    ObjectMark(dir, stem, asWritten);
    SidecarMark(dir, asWritten);
  }

  /** A file whose name ends in "_meta.json" is a sidecar only as
      written. */
  lemma ObjectMark(dir: string, stem: string, asWritten: bool)
    requires Normalised(dir) && |stem| > 0 && NoSlash(stem)
    ensures MarkOf(dir + "/" + (stem + META_NAME), asWritten) == (dir + "/" + (stem + META_NAME), if asWritten then Some(dir) else None)
  {
    var n := stem + META_NAME;
    var s := dir + "/" + n;
    assert NoSlash(n);
    SplitLastSlash(dir, n);
    assert |n| != |META_NAME|;
    if asWritten {
      assert s == (dir + "/" + stem) + META_NAME;
      assert Strings.EndsWith(s, META_NAME);
    }
  }

  /** The sidecar itself is one either way. */
  lemma SidecarMark(dir: string, asWritten: bool)
    requires Normalised(dir)
    ensures MarkOf(dir + "/" + META_NAME, asWritten) == (dir + "/" + META_NAME, Some(dir))
  {
    MetaNamePlain();
    SplitLastSlash(dir, META_NAME);
    SidecarEndsWith(dir + "/");
  }

  lemma MetaNamePlain()
    ensures NoSlash(META_NAME)
  {
  }

  lemma SidecarEndsWith(prefix: string)
    ensures Strings.EndsWith(prefix + META_NAME, META_NAME)
  {
    assert (prefix + META_NAME)[|prefix|..] == META_NAME;
  }

  /** Two marks of the same directory: the first is taken. */
  lemma FirstPerDirPair(a: string, b: string, d: string, first: Option<string>)
    requires first.None? || first == Some(d)
    ensures FirstPerDir([(a, first), (b, Some(d))]).taken == if first.Some? then [(a, d)] else [(b, d)]
  {
    var ks := [(a, first), (b, Some(d))];
    FirstPerDirSnoc(ks, 0);
    FirstPerDirSnoc(ks, 1);
    assert ks[..0] == [] && ks[..2] == ks;
  }

  /** As written, the object file, whose name merely ends in "_meta.json",
      is taken for the sidecar, and the real sidecar is then skipped as
      already processed: the entry is read with the object's text in place
      of its matrix values and metadata. */
  lemma SidecarSuffixMisread(dir: string, stem: string, objText: string, metaText: string)
    requires Normalised(dir) && |stem| > 0 && NoSlash(stem)
    ensures var z := SuffixExample(dir, stem, objText, metaText);
            ZipScan(z, true).taken == [(z[0].0, dir)] && ZipRead(z, z[0].0) == Some(objText)
  {
    var z := SuffixExample(dir, stem, objText, metaText);
    SuffixExampleMarks(dir, stem, objText, metaText, true);
    FirstPerDirPair(z[0].0, z[1].0, dir, Some(dir));
    assert |z[0].0| != |z[1].0|;
  }

  /** Matching the file name exactly, the same archive is read from its
      sidecar. */
  lemma SidecarExactName(dir: string, stem: string, objText: string, metaText: string)
    requires Normalised(dir) && |stem| > 0 && NoSlash(stem)
    ensures var z := SuffixExample(dir, stem, objText, metaText);
            ZipScan(z, false).taken == [(z[1].0, dir)] && ZipRead(z, z[1].0) == Some(metaText)
  {
    var z := SuffixExample(dir, stem, objText, metaText);
    SuffixExampleMarks(dir, stem, objText, metaText, false);
    FirstPerDirPair(z[0].0, z[1].0, dir, None);
  }

  /** The grouping loop of `_import_from_zip`. */
  method GroupMembers(z: Zip) returns (d: Dict<seq<string>>)
    ensures d == Grouped(z)
  {
    d := [];
    var i := 0;
    while i < |z|
      invariant 0 <= i <= |z|
      invariant d == Grouped(z[..i])
    {
      assert z[..i + 1][..i] == z[..i];
      var name := z[i].0;
      if !Strings.EndsWith(name, "/") {
        var parent := Parent(name);
        d := Store(d, parent, Get(d, parent).GetOr([]) + [name]);
      }
      i := i + 1;
    }
    assert z[..i] == z;
  }

  /** A fresh entry holding `md` and the files of `names`, as
      `_import_from_zip` builds it. */
  method EntryFromZip(z: Zip, names: seq<string>, md: Metadata) returns (entry: CacheEntry)
    ensures fresh(entry) && entry.Data() == EntryData(md, GroupObjects(ZipDirFiles(z, names)))
  {
    entry := new CacheEntry.WithMetadata(md);
    var j := 0;
    while j < |names|
      invariant 0 <= j <= |names|
      invariant fresh(entry) && entry.metadata == md
      invariant entry.objects == GroupObjects(ZipDirFiles(z, names[..j]))
    {
      AddMember(entry, z, names, j);
      j := j + 1;
    }
    assert names[..j] == names;
  }

  /** One member of the entry directory: every file but the sidecar is
      added as an object. */
  method AddMember(entry: CacheEntry, z: Zip, names: seq<string>, j: nat)
    requires j < |names| && entry.objects == GroupObjects(ZipDirFiles(z, names[..j]))
    modifies entry
    ensures entry.objects == GroupObjects(ZipDirFiles(z, names[..j + 1])) && entry.metadata == old(entry.metadata)
  {
    ZipDirFilesSnoc(z, names, j);
    var fname := BaseName(names[j]);
    if fname != META_NAME {
      AddFile(entry, ZipDirFiles(z, names[..j]), (fname, ZipRead(z, names[j]).GetOr("")));
    }
  }

  /** The body of `_import_from_zip`'s loop for a new entry directory. */
  method ImportOneZip(cache: WorkflowCache, z: Zip, names: seq<string>, name: string, metaText: string, ghost g: Group,
                      codec: JsonCodec, now: string)
    returns (stored: bool, err: Option<ImportError>)
    requires cache.Valid() && g == Group(name, metaText, ZipDirFiles(z, names))
    modifies cache
    ensures cache.Valid() && cache.connected == old(cache.connected)
    ensures (stored, cache.rows, err) == ImportGroup(old(cache.connected), cache.sha, old(cache.rows), g, codec, now)
  {
    var doc := codec.loads(metaText);
    if doc.None? {
      return false, Some(NotJson(name));
    }
    var entry := EntryFromZip(z, names, doc.value.metadata.GetOr(map[]));
    stored, err := PutGroup(cache, g, doc.value, entry, codec, now);
  }

  /** A failure while scanning part of the archive is the failure of the
      whole import. */
  lemma ZipStops(step: GroupImport, rows: seq<Row>, z: Zip, i: nat, asWritten: bool)
    requires i <= |z|
    requires ImportGroups(step, rows, GroupsOf(z, FirstPerDir(Marks(z, asWritten)[..i]).taken)).err.None? ==> i == |z|
    ensures ImportGroups(step, rows, ZipGroups(z, asWritten))
            == ImportGroups(step, rows, GroupsOf(z, FirstPerDir(Marks(z, asWritten)[..i]).taken))
  {
    var ks := Marks(z, asWritten);
    var a, b := FirstPerDir(ks[..i]).taken, FirstPerDir(ks).taken;
    var ga, gb := GroupsOf(z, a), GroupsOf(z, b);
    if ImportGroups(step, rows, ga).err.Some? {
      FirstPerDirPrefix(ks, i);
      assert forall k :: 0 <= k < |a| ==> gb[k] == ga[k];
      assert gb[..|a|] == ga;
      ImportGroupsPrefix(step, rows, gb, |a|);
    } else {
      assert ks[..i] == ks;
    }
  }

  /** A member that is not a sidecar, or whose directory was processed,
      leaves the scan as it was. */
  lemma ZipMemberSkipped(z: Zip, i: nat, asWritten: bool)
    requires i < |z|
    requires !SidecarName(z[i].0, asWritten) || Parent(z[i].0) in FirstPerDir(Marks(z, asWritten)[..i]).processed
    ensures FirstPerDir(Marks(z, asWritten)[..i + 1]) == FirstPerDir(Marks(z, asWritten)[..i])
  {
    FirstPerDirSnoc(Marks(z, asWritten), i);
  }

  /** A sidecar of a directory not processed yet adds its group and
      processes its directory. */
  lemma ZipMemberTaken(z: Zip, i: nat, asWritten: bool)
    requires i < |z|
    requires SidecarName(z[i].0, asWritten) && Parent(z[i].0) !in FirstPerDir(Marks(z, asWritten)[..i]).processed
    ensures FirstPerDir(Marks(z, asWritten)[..i + 1]).processed
            == FirstPerDir(Marks(z, asWritten)[..i]).processed + {Parent(z[i].0)}
    ensures GroupsOf(z, FirstPerDir(Marks(z, asWritten)[..i + 1]).taken)
            == GroupsOf(z, FirstPerDir(Marks(z, asWritten)[..i]).taken) + [ZipGroup(z, (z[i].0, Parent(z[i].0)))]
  {
    var ks := Marks(z, asWritten);
    FirstPerDirSnoc(ks, i);
    var taken := FirstPerDir(ks[..i]).taken;
    assert FirstPerDir(ks[..i + 1]).taken == taken + [(z[i].0, Parent(z[i].0))];
    assert GroupsOf(z, taken + [(z[i].0, Parent(z[i].0))]) == GroupsOf(z, taken) + [ZipGroup(z, (z[i].0, Parent(z[i].0)))];
  }

  method ImportZipMemberAt(cache: WorkflowCache, z: Zip, dirsFiles: Dict<seq<string>>, i: nat, processed: set<string>,
                           codec: JsonCodec, now: string, asWritten: bool, ghost rows0: seq<Row>, count: nat)
    returns (count': nat, err: Option<ImportError>, processed': set<string>)
    requires cache.Valid() && i < |z| && dirsFiles == Grouped(z)
    requires processed == FirstPerDir(Marks(z, asWritten)[..i]).processed
    requires ImportGroups(Importer(cache.connected, cache.sha, codec, now), rows0, GroupsOf(z, FirstPerDir(Marks(z, asWritten)[..i]).taken))
             == ImportProgress(count, cache.rows, None)
    modifies cache
    ensures cache.Valid() && cache.connected == old(cache.connected)
    ensures processed' == FirstPerDir(Marks(z, asWritten)[..i + 1]).processed
    ensures ImportGroups(Importer(cache.connected, cache.sha, codec, now), rows0, GroupsOf(z, FirstPerDir(Marks(z, asWritten)[..i + 1]).taken))
            == ImportProgress(count', cache.rows, err)
  {
    var name := z[i].0;
    if !SidecarName(name, asWritten) {
      ZipMemberSkipped(z, i, asWritten);
      return count, None, processed;
    }
    var dir := Parent(name);
    if dir in processed {
      ZipMemberSkipped(z, i, asWritten);
      return count, None, processed;
    }
    processed' := processed + {dir};
    ZipMemberTaken(z, i, asWritten);
    ghost var before := cache.rows;
    var stored;
    stored, err := ImportOneZip(cache, z, Get(dirsFiles, dir).GetOr([]), name, ZipRead(z, name).GetOr(""),
                                ZipGroup(z, (name, dir)), codec, now);
    ImportGroupsNext(Importer(cache.connected, cache.sha, codec, now), rows0, GroupsOf(z, FirstPerDir(Marks(z, asWritten)[..i]).taken),
                     ZipGroup(z, (name, dir)), count, before, stored, cache.rows, err);
    count' := if stored then count + 1 else count;
  }

  /** The scan of `_import_from_zip` over an existing archive. */
  method ImportZipMembers(cache: WorkflowCache, z: Zip, dirsFiles: Dict<seq<string>>, codec: JsonCodec, now: string,
                          asWritten: bool)
    returns (count: nat, err: Option<ImportError>, ghost read: nat)
    requires cache.Valid() && dirsFiles == Grouped(z)
    modifies cache
    ensures cache.Valid() && cache.connected == old(cache.connected)
    ensures read <= |z| && (err.None? ==> read == |z|)
    ensures ImportGroups(Importer(old(cache.connected), cache.sha, codec, now), old(cache.rows),
                         GroupsOf(z, FirstPerDir(Marks(z, asWritten)[..read]).taken)) == ImportProgress(count, cache.rows, err)
  {
    ghost var connected, rows0 := cache.connected, cache.rows;
    ghost var ks := Marks(z, asWritten);
    var processed: set<string> := {};
    count, err := 0, None;
    var i := 0;
    while i < |z| && err.None?
      invariant 0 <= i <= |z|
      invariant cache.Valid() && cache.connected == connected
      invariant processed == FirstPerDir(ks[..i]).processed
      invariant ImportGroups(Importer(connected, cache.sha, codec, now), rows0, GroupsOf(z, FirstPerDir(ks[..i]).taken))
                == ImportProgress(count, cache.rows, err)
    {
      count, err, processed := ImportZipMemberAt(cache, z, dirsFiles, i, processed, codec, now, asWritten, rows0, count);
      i := i + 1;
    }
    read := i;
  }

  /** `_import_from_zip` on a cache handle, reading each entry directory
      once, from its `_meta.json`. */
  method ImportFromZip(cache: WorkflowCache, input: Option<Zip>, codec: JsonCodec, now: string, asWritten: bool)
    returns (count: nat, err: Option<ImportError>)
    requires cache.Valid()
    modifies cache
    ensures cache.Valid() && cache.connected == old(cache.connected)
    ensures ImportZip(old(cache.connected), cache.sha, old(cache.rows), input, codec, now, asWritten)
            == ImportProgress(count, cache.rows, err)
  {
    if input.None? {
      return 0, Some(FileNotFound);
    }
    var dirsFiles := GroupMembers(input.value);
    ghost var read;
    count, err, read := ImportZipMembers(cache, input.value, dirsFiles, codec, now, asWritten);
    ZipStops(Importer(old(cache.connected), cache.sha, codec, now), old(cache.rows), input.value, read, asWritten);
  }

  // ---------------------------------------------------------------------
  // Either input

  /** `import_entries`: a path ending in ".zip", in any letter case, is
      read as an archive, any other as a directory; `dir` and `zip` are
      what the path holds when read as one or the other (None when it does
      not exist); `asWritten` picks the archive's sidecar test, as for
      `ImportZip`. */
  function ImportAll(connected: bool, sha: Sha256, rows: seq<Row>, inputPath: string,
                     dir: Option<Tree>, zip: Option<Zip>, codec: JsonCodec, now: string, asWritten: bool): (r: ImportProgress)
    ensures IsZipPath(inputPath) && zip.None? ==> r == ImportProgress(0, rows, Some(FileNotFound))
    ensures !IsZipPath(inputPath) && dir.None? ==> r == ImportProgress(0, rows, Some(FileNotFound))
    ensures !connected ==> r.rows == rows && r.count == 0
  {
    if IsZipPath(inputPath) then
      match zip
      case None => ImportProgress(0, rows, Some(FileNotFound))
      case Some(z) =>
        ImportClosedStoresNothing(sha, rows, ZipGroups(z, asWritten), codec, now);
        ImportZip(connected, sha, rows, zip, codec, now, asWritten)
    else
      match dir
      case None => ImportProgress(0, rows, Some(FileNotFound))
      case Some(t) => ImportClosedStoresNothing(sha, rows, DirGroups(t, t), codec, now); ImportDir(connected, sha, rows, dir, codec, now)
  }

  /** `import_entries` on a cache handle. */
  method ImportEntries(cache: WorkflowCache, inputPath: string, dir: Option<Tree>, zip: Option<Zip>, codec: JsonCodec, now: string,
                       asWritten: bool)
    returns (count: nat, err: Option<ImportError>)
    requires cache.Valid()
    modifies cache
    ensures cache.Valid() && cache.connected == old(cache.connected)
    ensures ImportAll(old(cache.connected), cache.sha, old(cache.rows), inputPath, dir, zip, codec, now, asWritten)
            == ImportProgress(count, cache.rows, err)
  {
    if IsZipPath(inputPath) {
      count, err := ImportFromZip(cache, zip, codec, now, asWritten);
    } else {
      count, err := ImportFromDir(cache, dir, codec, now);
    }
  }
}
