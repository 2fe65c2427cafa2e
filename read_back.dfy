/**
 * Reading back what export wrote: the import of the exported directory
 * finds one entry directory per exported entry, holding exactly its object
 * files, and stores each entry again under its own key.
 */
module ReadBack {
  import opened Wrappers
  import opened Assoc
  import opened CacheKey
  import opened Entry
  import opened Cache
  import opened Files
  import opened Export
  import opened Import
  import opened RoundTrip

  // ---------------------------------------------------------------------
  // The files of one directory

  /** Reading a listing in two parts finds the files of each part in turn. */
  lemma {:induction false} DirFilesAppend(a: seq<(Path, string)>, b: seq<(Path, string)>, dir: Path)
    ensures DirFiles(a + b, dir) == DirFiles(a, dir) + DirFiles(b, dir)
    decreases |b|
  {
    if |b| == 0 {
      assert a + b == a;
    } else {
      DirFilesAppend(a, b[..|b| - 1], dir);
      assert (a + b)[..|a + b| - 1] == a + b[..|b| - 1];
    }
  }

  /** A listing with nothing directly inside `dir` gives it no files. */
  lemma {:induction false} DirFilesNone(t: seq<(Path, string)>, dir: Path)
    requires forall i :: 0 <= i < |t| ==> !InDir(t[i].0, dir)
    ensures DirFiles(t, dir) == []
    decreases |t|
  {
    if |t| > 0 {
      assert forall i :: 0 <= i < |t| - 1 ==> t[..|t| - 1][i] == t[i];
      DirFilesNone(t[..|t| - 1], dir);
    }
  }

  /** The files written for one entry: one per object file, in the
      entry's directory, then the sidecar. */
  lemma TextsShape(x: Item, codec: JsonCodec)
    requires PortableEntry(x.entry)
    ensures var ts, fs := TextsOf(x, codec), ObjectFiles(x.entry);
      |ts| == |fs| + 1 && ts[|fs|] == (x.path + [META_NAME], codec.dumps(Sidecar(x.info, x.entry.metadata))) &&
      forall i :: 0 <= i < |fs| ==> ts[i] == (x.path + [fs[i].0], fs[i].1) && fs[i].0 != META_NAME
  {
  }

  /** Files `path + [name]`, none of them a sidecar, lie directly inside
      `dir` exactly when `path` is `dir`. */
  lemma {:induction false} FilesIn(ts: seq<(Path, string)>, path: Path, fs: seq<(string, string)>, dir: Path, j: nat)
    requires j <= |fs| <= |ts|
    requires forall i :: 0 <= i < |fs| ==> ts[i] == (path + [fs[i].0], fs[i].1) && fs[i].0 != META_NAME
    ensures DirFiles(ts[..j], dir) == if path == dir then fs[..j] else []
    decreases j
  {
    if j > 0 {
      FilesIn(ts, path, fs, dir, j - 1);
      DirFilesSnoc(ts, j - 1, dir);
      var p := ts[j - 1].0;
      assert p == path + [fs[j - 1].0] && p[..|path|] == path;
      if path == dir {
        assert InDir(p, dir) && p[|dir|] == fs[j - 1].0;
        assert fs[..j] == fs[..j - 1] + [fs[j - 1]];
      } else {
        assert !InDir(p, dir);
      }
    }
  }

  /** The files `dir` holds among those written for one entry: its objects
      when it is the entry's directory, none otherwise. */
  lemma TextsFiles(x: Item, codec: JsonCodec, dir: Path)
    requires PortableEntry(x.entry)
    ensures DirFiles(TextsOf(x, codec), dir) == if x.path == dir then ObjectFiles(x.entry) else []
  {
    var ts, fs := TextsOf(x, codec), ObjectFiles(x.entry);
    var n := |fs|;
    TextsShape(x, codec);
    FilesIn(ts, x.path, fs, dir, n);
    DirFilesSnoc(ts, n, dir);
    assert ts[..n + 1] == ts;
    assert fs[..n] == fs;
  }

  /** A directory none of `xs` is written to holds none of their files. */
  lemma WrittenFilesAway(xs: seq<Item>, codec: JsonCodec, dir: Path)
    requires AllPortable(xs)
    requires forall a :: 0 <= a < |xs| ==> xs[a].path != dir
    ensures DirFiles(Written(xs, codec), dir) == []
  {
    var w := Written(xs, codec);
    forall i | 0 <= i < |w| ensures !InDir(w[i].0, dir) {
      WrittenAway(xs, codec, dir, i);
    }
    DirFilesNone(w, dir);
  }

  /** What one more entry adds to the files of a directory. */
  lemma WrittenDirFiles(xs: seq<Item>, codec: JsonCodec, dir: Path)
    requires AllPortable(xs) && |xs| > 0
    ensures AllPortable(xs[..|xs| - 1])
    ensures var x := xs[|xs| - 1];
      DirFiles(Written(xs, codec), dir) ==
      DirFiles(Written(xs[..|xs| - 1], codec), dir) + if x.path == dir then ObjectFiles(x.entry) else []
  {
    var n := |xs| - 1;
    WrittenSnoc(xs, codec);
    DirFilesAppend(Written(xs[..n], codec), TextsOf(xs[n], codec), dir);
    TextsFiles(xs[n], codec, dir);
  }

  /** When no two entries share a directory, the directory of each holds
      exactly its object files. */
  lemma {:induction false} WrittenFiles(xs: seq<Item>, codec: JsonCodec, k: nat)
    requires AllPortable(xs) && PathsDistinct(xs) && k < |xs|
    ensures DirFiles(Written(xs, codec), xs[k].path) == ObjectFiles(xs[k].entry)
    decreases |xs|
  {
    var n := |xs| - 1;
    var front := xs[..n];
    WrittenDirFiles(xs, codec, xs[k].path);
    assert forall a :: 0 <= a < n ==> front[a] == xs[a];
    if k == n {
      WrittenFilesAway(front, codec, xs[k].path);
    } else {
      assert xs[n].path != xs[k].path;
      WrittenFiles(front, codec, k);
    }
  }

  // ---------------------------------------------------------------------
  // The entry directories

  /** The entry directory import reads for `x` from the tree `tree`. */
  function GroupFor(tree: Tree, x: Item, codec: JsonCodec): Group {
    Group(Join(x.path + [META_NAME]), codec.dumps(Sidecar(x.info, x.entry.metadata)), DirFiles(tree, x.path))
  }

  /** The entry directories of `xs`, in order. */
  function Groups(tree: Tree, xs: seq<Item>, codec: JsonCodec): (r: seq<Group>)
    ensures |r| == |xs|
    ensures forall k :: 0 <= k < |xs| ==> r[k] == GroupFor(tree, xs[k], codec)
  {
    seq(|xs|, k requires 0 <= k < |xs| => GroupFor(tree, xs[k], codec))
  }

  /** One more entry adds its directory. */
  lemma GroupsSnoc(tree: Tree, xs: seq<Item>, codec: JsonCodec)
    requires |xs| > 0
    ensures Groups(tree, xs, codec) == Groups(tree, xs[..|xs| - 1], codec) + [GroupFor(tree, xs[|xs| - 1], codec)]
  {
    var n := |xs| - 1;
    var r, f := Groups(tree, xs, codec), Groups(tree, xs[..n], codec) + [GroupFor(tree, xs[n], codec)];
    forall a | 0 <= a < |xs| ensures r[a] == f[a] {
      if a < n {
        assert xs[..n][a] == xs[a];
      }
    }
  }

  /** Files `path + [name]`, none of them a sidecar, mark no entry
      directory. */
  lemma {:induction false} NoSidecars(tree: Tree, ts: seq<(Path, string)>, path: Path, fs: seq<(string, string)>, j: nat)
    requires j <= |fs| <= |ts|
    requires forall i :: 0 <= i < |fs| ==> ts[i] == (path + [fs[i].0], fs[i].1) && fs[i].0 != META_NAME
    ensures DirGroups(tree, ts[..j]) == []
    decreases j
  {
    if j > 0 {
      NoSidecars(tree, ts, path, fs, j - 1);
      DirGroupsSnoc(tree, ts, j - 1);
    }
  }

  /** The files of one entry make one entry directory, found by its
      sidecar. */
  lemma TextsGroups(tree: Tree, x: Item, codec: JsonCodec)
    requires PortableEntry(x.entry)
    ensures DirGroups(tree, TextsOf(x, codec)) == [GroupFor(tree, x, codec)]
  {
    var ts, fs := TextsOf(x, codec), ObjectFiles(x.entry);
    var n := |fs|;
    TextsShape(x, codec);
    NoSidecars(tree, ts, x.path, fs, n);
    DirGroupsSnoc(tree, ts, n);
    assert ts[..n + 1] == ts;
    var p := ts[n].0;
    assert p[..|p| - 1] == x.path;
  }

  /** The files written for `xs` make one entry directory per entry, in
      order. */
  lemma {:induction false} WrittenGroups(tree: Tree, xs: seq<Item>, codec: JsonCodec)
    requires AllPortable(xs)
    ensures DirGroups(tree, Written(xs, codec)) == Groups(tree, xs, codec)
    decreases |xs|
  {
    if |xs| > 0 {
      var n := |xs| - 1;
      var front := xs[..n];
      WrittenSnoc(xs, codec);
      WrittenGroups(tree, front, codec);
      DirGroupsAppend(tree, Written(front, codec), TextsOf(xs[n], codec));
      TextsGroups(tree, xs[n], codec);
      GroupsSnoc(tree, xs, codec);
    }
  }

  /** What import reads back for `x`: its sidecar and its object files. */
  function Stored(x: Item, codec: JsonCodec): Group
    requires PortableEntry(x.entry)
  {
    Group(Join(x.path + [META_NAME]), codec.dumps(Sidecar(x.info, x.entry.metadata)), ObjectFiles(x.entry))
  }

  function StoredAll(xs: seq<Item>, codec: JsonCodec): (r: seq<Group>)
    requires AllPortable(xs)
    ensures |r| == |xs|
  {
    seq(|xs|, k requires 0 <= k < |xs| => Stored(xs[k], codec))
  }

  /** The directories read from the files written for entries with
      distinct directories hold exactly their sidecars and object files. */
  lemma GroupsStored(t: Tree, xs: seq<Item>, codec: JsonCodec)
    requires AllPortable(xs) && PathsDistinct(xs) && t == Written(xs, codec)
    ensures Groups(t, xs, codec) == StoredAll(xs, codec)
  {
    forall k | 0 <= k < |xs| ensures Groups(t, xs, codec)[k] == StoredAll(xs, codec)[k] {
      WrittenFiles(xs, codec, k);
    }
  }

  // ---------------------------------------------------------------------
  // Storing the entries again

  /** The listings of `xs`, in order. */
  function Infos(xs: seq<Item>): (r: seq<Listed>)
    ensures |r| == |xs|
  {
    seq(|xs|, k requires 0 <= k < |xs| => xs[k].info)
  }

  /** Each entry of `xs` found, in order. */
  function Founds(xs: seq<Item>): (r: seq<Got>)
    ensures |r| == |xs|
  {
    seq(|xs|, k requires 0 <= k < |xs| => Success(Some(xs[k].entry)))
  }

  /** No two entries of `xs` have the same key. */
  predicate KeysApart(xs: seq<Item>) {
    forall a, b :: 0 <= a < b < |xs| ==> KeyJson(xs[a].info.matrixValues) != KeyJson(xs[b].info.matrixValues)
  }

  /** `kd` is the key of none of `xs`. */
  predicate Unlisted(kd: MatrixValues, xs: seq<Item>) {
    forall k :: 0 <= k < |xs| ==> KeyJson(kd) != KeyJson(xs[k].info.matrixValues)
  }

  /** Importing the directory of an entry whose variable names are those
      of the cache puts the entry under its key. */
  lemma ImportOne(sha: Sha256, rows: seq<Row>, x: Item, codec: JsonCodec, now: string, names: set<string>)
    requires RoundTrips(codec) && PortableEntry(x.entry) && |x.entry.objects| > 0
    requires KeySet(x.info.matrixValues) == names
    requires |rows| == 0 || SchemaOf(rows) == Success(Some(names))
    ensures CachePut(sha, rows, x.info.matrixValues, x.entry, now).Success?
    ensures ImportGroup(true, sha, rows, Stored(x, codec), codec, now) ==
            (true, CachePut(sha, rows, x.info.matrixValues, x.entry, now).value.1, None)
  {
    ObjectFilesRead(x.entry);
    assert codec.loads(codec.dumps(Sidecar(x.info, x.entry.metadata))) == Some(Sidecar(x.info, x.entry.metadata));
  }

  /** A put leaves the lookups of the other keys as they were and finds
      the entry it stored. */
  lemma LookupsAfterPut(sha: Sha256, rows: seq<Row>, info: Listed, e: EntryData, now: string,
                        infos: seq<Listed>, gots: seq<Got>)
    requires CachePut(sha, rows, info.matrixValues, e, now).Success?
    requires Each(Lookup(sha, rows), infos) == gots
    requires forall k :: 0 <= k < |infos| ==> KeyJson(infos[k].matrixValues) != KeyJson(info.matrixValues)
    ensures Each(Lookup(sha, CachePut(sha, rows, info.matrixValues, e, now).value.1), infos + [info]) ==
            gots + [Success(Some(e))]
  {
    var after := CachePut(sha, rows, info.matrixValues, e, now).value.1;
    var r := Each(Lookup(sha, after), infos + [info]);
    forall k | 0 <= k < |infos| + 1 ensures r[k] == (gots + [Success(Some(e))])[k] {
      if k < |infos| {
        PutLeavesOthers(sha, rows, info.matrixValues, e, now, infos[k].matrixValues);
        assert r[k] == CacheGet(sha, after, infos[k].matrixValues);
        assert gots[k] == CacheGet(sha, rows, infos[k].matrixValues);
      } else {
        PutThenGet(sha, rows, info.matrixValues, e, now);
      }
    }
  }

  /** Rows that agree with `before` on every key other than the last
      entry's hold no key outside `xs` when `before` held none outside the
      entries before it. */
  lemma UnlistedAfter(sha: Sha256, before: seq<Row>, after: seq<Row>, xs: seq<Item>)
    requires |xs| > 0
    requires forall kd :: KeyJson(kd) != KeyJson(xs[|xs| - 1].info.matrixValues) ==>
      CacheExists(sha, after, kd) == CacheExists(sha, before, kd)
    requires forall kd :: Unlisted(kd, xs[..|xs| - 1]) ==> !CacheExists(sha, before, kd)
    ensures forall kd :: Unlisted(kd, xs) ==> !CacheExists(sha, after, kd)
  {
    var n := |xs| - 1;
    forall kd | Unlisted(kd, xs) ensures !CacheExists(sha, after, kd) {
      assert KeyJson(kd) != KeyJson(xs[n].info.matrixValues);
      assert Unlisted(kd, xs[..n]) by {
        assert forall k :: 0 <= k < n ==> xs[..n][k] == xs[k];
      }
    }
  }

  /** The rows after putting each entry of `xs` in turn into an empty
      cache (a put that fails leaves them as they were). */
  function Reput(sha: Sha256, xs: seq<Item>, now: string): seq<Row>
    decreases |xs|
  {
    if |xs| == 0 then []
    else
      var before := Reput(sha, xs[..|xs| - 1], now);
      var x := xs[|xs| - 1];
      match CachePut(sha, before, x.info.matrixValues, x.entry, now)
      case Success(p) => p.1
      case Failure(_) => before
  }

  /** The entries' variable names are all `names`. */
  predicate NamedBy(xs: seq<Item>, names: set<string>) {
    forall k :: 0 <= k < |xs| ==> KeySet(xs[k].info.matrixValues) == names
  }

  /** The first `n` entries, as a prefix. */
  lemma FrontOf(xs: seq<Item>, n: nat)
    requires n <= |xs|
    ensures |xs[..n]| == n && forall k :: 0 <= k < n ==> xs[..n][k] == xs[k]
  {
  }

  /** The last entry is put after the others. */
  lemma ReputLast(sha: Sha256, xs: seq<Item>, now: string)
    requires |xs| > 0
    ensures var x := xs[|xs| - 1]; var p := CachePut(sha, Reput(sha, xs[..|xs| - 1], now), x.info.matrixValues, x.entry, now);
      p.Success? ==> Reput(sha, xs, now) == p.value.1
  {
  }

  /** A put with the cache's names succeeds and keeps them. */
  lemma PutNamed(sha: Sha256, before: seq<Row>, x: Item, now: string, names: set<string>)
    requires |before| == 0 || SchemaOf(before) == Success(Some(names))
    requires KeySet(x.info.matrixValues) == names
    ensures CachePut(sha, before, x.info.matrixValues, x.entry, now).Success?
    ensures SchemaOf(CachePut(sha, before, x.info.matrixValues, x.entry, now).value.1) == Success(Some(names))
  {
    PutKeepsSchema(sha, before, x.info.matrixValues, x.entry, now);
  }

  /** After putting entries with the names `names`, the cache's names are
      `names`, and every put succeeds. */
  lemma {:induction false} ReputSchema(sha: Sha256, xs: seq<Item>, now: string, names: set<string>)
    requires NamedBy(xs, names)
    ensures |xs| > 0 ==> SchemaOf(Reput(sha, xs, now)) == Success(Some(names))
    decreases |xs|
  {
    if |xs| > 0 {
      var n := |xs| - 1;
      FrontOf(xs, n);
      ReputSchema(sha, xs[..n], now, names);
      PutNamed(sha, Reput(sha, xs[..n], now), xs[n], now, names);
      ReputLast(sha, xs, now);
    }
  }

  /** Entry `n` is put after the ones before it, and the put succeeds. */
  lemma ReputStep(sha: Sha256, xs: seq<Item>, now: string, names: set<string>, n: nat)
    requires NamedBy(xs, names) && n < |xs|
    ensures CachePut(sha, Reput(sha, xs[..n], now), xs[n].info.matrixValues, xs[n].entry, now).Success?
    ensures Reput(sha, xs[..n + 1], now) ==
            CachePut(sha, Reput(sha, xs[..n], now), xs[n].info.matrixValues, xs[n].entry, now).value.1
  {
    var front := xs[..n + 1];
    FrontOf(xs, n);
    assert front[..n] == xs[..n] && front[n] == xs[n];
    ReputSchema(sha, xs[..n], now, names);
    PutNamed(sha, Reput(sha, xs[..n], now), xs[n], now, names);
    ReputLast(sha, front, now);
  }

  /** One more entry's listing and lookup. */
  lemma InfosSnoc(xs: seq<Item>)
    requires |xs| > 0
    ensures Infos(xs) == Infos(xs[..|xs| - 1]) + [xs[|xs| - 1].info]
    ensures Founds(xs) == Founds(xs[..|xs| - 1]) + [Success(Some(xs[|xs| - 1].entry))]
  {
    FrontOf(xs, |xs| - 1);
  }

  /** Putting the last entry, under a key none of the others has, keeps
      finding the others and finds it too. */
  lemma FindsAfterPut(sha: Sha256, before: seq<Row>, xs: seq<Item>, now: string)
    requires |xs| > 0 && KeysApart(xs)
    requires var x := xs[|xs| - 1]; CachePut(sha, before, x.info.matrixValues, x.entry, now).Success?
    requires Each(Lookup(sha, before), Infos(xs[..|xs| - 1])) == Founds(xs[..|xs| - 1])
    ensures var x := xs[|xs| - 1];
      Each(Lookup(sha, CachePut(sha, before, x.info.matrixValues, x.entry, now).value.1), Infos(xs)) == Founds(xs)
  {
    var n := |xs| - 1;
    var front, x := xs[..n], xs[n];
    FrontOf(xs, n);
    assert forall k :: 0 <= k < n ==> KeyJson(Infos(front)[k].matrixValues) != KeyJson(x.info.matrixValues);
    LookupsAfterPut(sha, before, x.info, x.entry, now, Infos(front), Founds(front));
    InfosSnoc(xs);
  }

  /** Putting the last entry adds no key but its own. */
  lemma OnlyAfterPut(sha: Sha256, before: seq<Row>, xs: seq<Item>, now: string)
    requires |xs| > 0
    requires var x := xs[|xs| - 1]; CachePut(sha, before, x.info.matrixValues, x.entry, now).Success?
    requires forall kd :: Unlisted(kd, xs[..|xs| - 1]) ==> !CacheExists(sha, before, kd)
    ensures var x := xs[|xs| - 1]; var after := CachePut(sha, before, x.info.matrixValues, x.entry, now).value.1;
      forall kd :: Unlisted(kd, xs) ==> !CacheExists(sha, after, kd)
  {
    var x := xs[|xs| - 1];
    PutLeavesAll(sha, before, x.info.matrixValues, x.entry, now);
    UnlistedAfter(sha, before, CachePut(sha, before, x.info.matrixValues, x.entry, now).value.1, xs);
  }

  /** Putting the last entry, under a key none of the others has, adds
      one row. */
  lemma GrowsAfterPut(sha: Sha256, before: seq<Row>, xs: seq<Item>, now: string)
    requires |xs| > 0 && KeysApart(xs)
    requires var x := xs[|xs| - 1]; CachePut(sha, before, x.info.matrixValues, x.entry, now).Success?
    requires forall kd :: Unlisted(kd, xs[..|xs| - 1]) ==> !CacheExists(sha, before, kd)
    ensures var x := xs[|xs| - 1]; |CachePut(sha, before, x.info.matrixValues, x.entry, now).value.1| == |before| + 1
  {
    var n := |xs| - 1;
    var x := xs[n];
    FrontOf(xs, n);
    assert Unlisted(x.info.matrixValues, xs[..n]);
    PutCount(sha, before, x.info.matrixValues, x.entry, now);
  }

  /** Each entry put is found under its own key. */
  lemma {:induction false} ReputFinds(sha: Sha256, xs: seq<Item>, now: string, names: set<string>)
    requires NamedBy(xs, names) && KeysApart(xs)
    ensures Each(Lookup(sha, Reput(sha, xs, now)), Infos(xs)) == Founds(xs)
    decreases |xs|
  {
    if |xs| > 0 {
      var n := |xs| - 1;
      FrontOf(xs, n);
      ReputFinds(sha, xs[..n], now, names);
      ReputSchema(sha, xs[..n], now, names);
      PutNamed(sha, Reput(sha, xs[..n], now), xs[n], now, names);
      FindsAfterPut(sha, Reput(sha, xs[..n], now), xs, now);
      ReputLast(sha, xs, now);
    }
  }

  /** No other key is present, and there is one row per entry. */
  lemma {:induction false} ReputOnly(sha: Sha256, xs: seq<Item>, now: string, names: set<string>)
    requires NamedBy(xs, names) && KeysApart(xs)
    ensures forall kd :: Unlisted(kd, xs) ==> !CacheExists(sha, Reput(sha, xs, now), kd)
    ensures |Reput(sha, xs, now)| == |xs|
    decreases |xs|
  {
    if |xs| > 0 {
      var n := |xs| - 1;
      FrontOf(xs, n);
      ReputOnly(sha, xs[..n], now, names);
      ReputSchema(sha, xs[..n], now, names);
      PutNamed(sha, Reput(sha, xs[..n], now), xs[n], now, names);
      OnlyAfterPut(sha, Reput(sha, xs[..n], now), xs, now);
      GrowsAfterPut(sha, Reput(sha, xs[..n], now), xs, now);
      ReputLast(sha, xs, now);
    }
  }

  /** Importing directories that each store one more entry, in turn. */
  lemma {:induction false} ImportGroupsChain(step: GroupImport, gs: seq<Group>, rs: seq<seq<Row>>)
    requires |rs| == |gs| + 1 && rs[0] == []
    requires forall k :: 0 <= k < |gs| ==> step(rs[k], gs[k]) == (true, rs[k + 1], None)
    ensures ImportGroups(step, [], gs) == ImportProgress(|gs|, rs[|gs|], None)
    decreases |gs|
  {
    if |gs| > 0 {
      var n := |gs| - 1;
      ImportGroupsChain(step, gs[..n], rs[..n + 1]);
      ImportGroupsNext(step, [], gs[..n], gs[n], n, rs[n], true, rs[n + 1], None);
      assert gs[..n] + [gs[n]] == gs;
    }
  }

  /** Importing the directories of entries with distinct keys and the same
      variable names into an empty cache stores each entry in turn. */
  lemma ImportStoresAll(sha: Sha256, xs: seq<Item>, codec: JsonCodec, now: string, names: set<string>)
    requires RoundTrips(codec) && AllPortable(xs) && NamedBy(xs, names)
    requires forall k :: 0 <= k < |xs| ==> |xs[k].entry.objects| > 0
    ensures ImportGroups(Importer(true, sha, codec, now), [], StoredAll(xs, codec)) ==
            ImportProgress(|xs|, Reput(sha, xs, now), None)
  {
    var step := Importer(true, sha, codec, now);
    var gs := StoredAll(xs, codec);
    var rs := seq(|xs| + 1, k requires 0 <= k <= |xs| => Reput(sha, xs[..k], now));
    forall k | 0 <= k < |gs| ensures step(rs[k], gs[k]) == (true, rs[k + 1], None) {
      StoresNext(sha, xs, codec, now, names, k);
    }
    ImportGroupsChain(step, gs, rs);
    assert xs[..|xs|] == xs;
  }

  /** Importing the directory of entry `k` after the ones before it puts
      it after them. */
  lemma StoresNext(sha: Sha256, xs: seq<Item>, codec: JsonCodec, now: string, names: set<string>, k: nat)
    requires RoundTrips(codec) && AllPortable(xs) && NamedBy(xs, names) && k < |xs|
    requires forall k :: 0 <= k < |xs| ==> |xs[k].entry.objects| > 0
    ensures Importer(true, sha, codec, now)(Reput(sha, xs[..k], now), Stored(xs[k], codec)) ==
            (true, Reput(sha, xs[..k + 1], now), None)
  {
    FrontOf(xs, k);
    ReputSchema(sha, xs[..k], now, names);
    ReputStep(sha, xs, now, names, k);
    ImportOne(sha, Reput(sha, xs[..k], now), xs[k], codec, now, names);
  }

  // ---------------------------------------------------------------------
  // What the exported entries satisfy

  /** Entries whose directories are apart are kept with distinct
      directories. */
  lemma {:induction false} KeptApart(entries: seq<Listed>, gots: seq<Got>, paths: seq<Path>)
    requires |gots| == |paths| == |entries| && Apart(gots, paths)
    ensures PathsDistinct(RoundTrip.Kept(entries, gots, paths))
    decreases |entries|
  {
    if |entries| > 0 {
      var n := |entries| - 1;
      var ef, gf, pf := entries[..n], gots[..n], paths[..n];
      assert forall i :: 0 <= i < n ==> gf[i] == gots[i] && pf[i] == paths[i];
      KeptApart(ef, gf, pf);
      var prev := RoundTrip.Kept(ef, gf, pf);
      if Holds(gots[n]) {
        var x := Item(paths[n], entries[n], gots[n].value.value);
        assert RoundTrip.Kept(entries, gots, paths) == prev + [x];
        forall a | 0 <= a < |prev| ensures prev[a].path != x.path {
          var i := KeptHeld(ef, gf, pf, a);
          assert Holds(gots[i]) && paths[i] == prev[a].path;
        }
      }
    }
  }

  /** Each kept entry is written to the directory its key gives. */
  lemma KeptPlaced(entries: seq<Listed>, gots: seq<Got>, mk: Option<seq<string>>, k: nat)
    requires |gots| == |entries| && k < |RoundTrip.Kept(entries, gots, Each(Place(mk), entries))|
    ensures var x := RoundTrip.Kept(entries, gots, Each(Place(mk), entries))[k];
      x.path == EntryPath(x.info.matrixValues, mk)
  {
    var i := KeptHeld(entries, gots, Each(Place(mk), entries), k);
  }

  /** Each kept entry is what the cache holds under its key. */
  lemma KeptFound(sha: Sha256, rows: seq<Row>, entries: seq<Listed>, paths: seq<Path>, k: nat)
    requires |paths| == |entries| && k < |RoundTrip.Kept(entries, Each(Lookup(sha, rows), entries), paths)|
    ensures var x := RoundTrip.Kept(entries, Each(Lookup(sha, rows), entries), paths)[k];
      CacheGet(sha, rows, x.info.matrixValues) == Success(Some(x.entry))
  {
    var i := KeptHeld(entries, Each(Lookup(sha, rows), entries), paths, k);
  }

  /** Entries written to distinct directories have distinct keys. */
  lemma KeysFromPaths(xs: seq<Item>, mk: Option<seq<string>>)
    requires PathsDistinct(xs)
    requires forall k :: 0 <= k < |xs| ==> xs[k].path == EntryPath(xs[k].info.matrixValues, mk)
    ensures KeysApart(xs)
  {
    forall a, b | 0 <= a < b < |xs|
      ensures KeyJson(xs[a].info.matrixValues) != KeyJson(xs[b].info.matrixValues)
    {
      if KeyJson(xs[a].info.matrixValues) == KeyJson(xs[b].info.matrixValues) {
        KeyJsonInjective(xs[a].info.matrixValues, xs[b].info.matrixValues);
        EntryPathByContents(xs[a].info.matrixValues, xs[b].info.matrixValues, mk);
        assert false;
      }
    }
  }

  /** The entries kept from a cache whose rows agree on their variable
      names share those names. */
  lemma KeptNamed(rows: seq<Row>, gots: seq<Got>, paths: seq<Path>, names: set<string>)
    requires |gots| == |paths| == |rows|
    requires forall i :: 0 <= i < |rows| ==> KeySet(rows[i].key) == names
    ensures NamedBy(RoundTrip.Kept(Listing(rows), gots, paths), names)
  {
    var xs := RoundTrip.Kept(Listing(rows), gots, paths);
    forall k | 0 <= k < |xs| ensures KeySet(xs[k].info.matrixValues) == names {
      var i := KeptHeld(Listing(rows), gots, paths, k);
    }
  }

  /** The lookups of the kept entries in the cache they came from. */
  lemma KeptFounds(sha: Sha256, rows: seq<Row>, entries: seq<Listed>, mk: Option<seq<string>>)
    ensures var xs := Exported(sha, rows, entries, mk);
      Each(Lookup(sha, rows), Infos(xs)) == Founds(xs)
  {
    var xs := Exported(sha, rows, entries, mk);
    forall k | 0 <= k < |xs| ensures Each(Lookup(sha, rows), Infos(xs))[k] == Founds(xs)[k] {
      KeptFound(sha, rows, entries, Each(Place(mk), entries), k);
    }
  }

  /** What export demands for the round trip gives the exported entries
      distinct directories and keys and common variable names. */
  lemma ExportedFit(sha: Sha256, rows: seq<Row>, mk: Option<seq<string>>) returns (names: set<string>)
    requires SchemaOf(rows).Success?
    requires Apart(Each(Lookup(sha, rows), Listing(rows)), Each(Place(mk), Listing(rows)))
    ensures var xs := Exported(sha, rows, Listing(rows), mk);
      PathsDistinct(xs) && KeysApart(xs) && NamedBy(xs, names)
  {
    var entries := Listing(rows);
    var gots, paths := Each(Lookup(sha, rows), entries), Each(Place(mk), entries);
    var xs := RoundTrip.Kept(entries, gots, paths);
    KeptApart(entries, gots, paths);
    forall k | 0 <= k < |xs| ensures xs[k].path == EntryPath(xs[k].info.matrixValues, mk) {
      KeptPlaced(entries, gots, mk, k);
    }
    KeysFromPaths(xs, mk);
    SchemaOfConsistent(rows);
    names := if |rows| == 0 then {} else KeySet(rows[0].key);
    KeptNamed(rows, gots, paths, names);
  }

  /** Importing the directory written for entries with distinct directories
      and keys into an empty cache stores exactly those entries. */
  lemma ReadBackAll(sha: Sha256, t: Tree, xs: seq<Item>, codec: JsonCodec, now: string, names: set<string>)
    returns (back: seq<Row>)
    requires RoundTrips(codec) && AllPortable(xs) && t == Written(xs, codec)
    requires PathsDistinct(xs) && KeysApart(xs) && NamedBy(xs, names)
    requires forall k :: 0 <= k < |xs| ==> |xs[k].entry.objects| > 0
    ensures ImportDir(true, sha, [], Some(t), codec, now) == ImportProgress(|xs|, back, None)
    ensures |back| == |xs| && Each(Lookup(sha, back), Infos(xs)) == Founds(xs)
    ensures forall kd :: Unlisted(kd, xs) ==> !CacheExists(sha, back, kd)
  {
    WrittenGroups(t, xs, codec);
    GroupsStored(t, xs, codec);
    ImportStoresAll(sha, xs, codec, now, names);
    back := Reput(sha, xs, now);
    ReputFinds(sha, xs, now, names);
    ReputOnly(sha, xs, now, names);
  }

  /** Each exported entry holds an object. */
  lemma KeptHold(entries: seq<Listed>, gots: seq<Got>, paths: seq<Path>)
    requires |gots| == |paths| == |entries|
    ensures forall k :: 0 <= k < |RoundTrip.Kept(entries, gots, paths)| ==> |RoundTrip.Kept(entries, gots, paths)[k].entry.objects| > 0
  {
    forall k | 0 <= k < |RoundTrip.Kept(entries, gots, paths)| ensures |RoundTrip.Kept(entries, gots, paths)[k].entry.objects| > 0 {
      var i := KeptHeld(entries, gots, paths, k);
    }
  }

  /** Every listed entry can be read, its objects are portable, and the
      directories of the entries written are apart. */
  predicate Exportable(sha: Sha256, rows: seq<Row>, mk: Option<seq<string>>) {
    var gots := Each(Lookup(sha, rows), Listing(rows));
    (forall i :: 0 <= i < |gots| ==> gots[i].Success?) &&
    HeldPortable(gots) && Apart(gots, Each(Place(mk), Listing(rows)))
  }

  /** Exporting an open cache to a directory and importing that directory
      into an empty cache: both run to the end with the same count, the
      new cache has one row per exported entry, finds each exported entry
      exactly as the old one did, and holds no other key. This needs every
      entry to be readable, the exported objects to be portable, the
      entries' directories to be apart and the cache's rows to agree on
      their variable names. */
  lemma {:induction false} DirectoryRoundTrip(sha: Sha256, rows: seq<Row>, mk: Option<seq<string>>, codec: JsonCodec,
                                              outputPath: string, now: string)
    returns (t: Tree, back: seq<Row>)
    requires RoundTrips(codec) && !IsZipPath(outputPath) && SchemaOf(rows).Success?
    requires Exportable(sha, rows, mk)
    ensures var xs := Exported(sha, rows, Listing(rows), mk);
      ExportAll(true, sha, rows, outputPath, mk, [], codec) == ExportProgress(|xs|, DirOut(t), None) &&
      ImportAll(true, sha, [], outputPath, Some(t), None, codec, now, true) == ImportProgress(|xs|, back, None) &&
      |back| == |xs| &&
      Each(Lookup(sha, back), Infos(xs)) == Each(Lookup(sha, rows), Infos(xs)) &&
      forall kd :: Unlisted(kd, xs) ==> !CacheExists(sha, back, kd)
  {
    var entries := Listing(rows);
    var gots, paths := Each(Lookup(sha, rows), entries), Each(Place(mk), entries);
    var xs := Exported(sha, rows, entries, mk);
    t := ExportWritesAll(sha, rows, entries, gots, paths, mk, codec);
    var names := ExportedFit(sha, rows, mk);
    KeptHold(entries, gots, paths);
    back := ReadBackAll(sha, t, xs, codec, now, names);
    KeptFounds(sha, rows, entries, mk);
  }
}
