/**
 * workflow_cache.py: `WorkflowCache`, the store of workflow results keyed by
 * matrix values. The storage engine underneath (TokenCache) is external; its
 * contract is modelled as a list of rows in insertion order, each found by
 * the pair (truncated hash, canonical key), so two keys whose hashes collide
 * still occupy two rows. All entries must share one set of matrix variable
 * names (the matrix schema).
 */
module Cache {
  import opened Wrappers
  import opened Assoc
  import opened Values
  import opened CacheKey
  import opened Entry

  /** One stored row: the hash and canonical key it is found by, the
      entry's storage form and the creation time. */
  datatype Row = Row(hash: string, key: MatrixValues, data: Dict<Record>, metadata: Metadata, createdAt: string)

  /** `RuntimeError` (not connected, already connected), `MatrixSchemaError`
      (mismatching or inconsistent variable names) and an entry that cannot
      be rebuilt. */
  datatype CacheError =
    | NotConnected
    | AlreadyConnected
    | SchemaMismatch(got: set<string>, expected: set<string>)
    | InconsistentSchema(found: set<string>, expected: set<string>)
    | EntryFailure(err: EntryError)

  /** One item of `list_entries`. */
  datatype Listed = Listed(hash: string, matrixValues: MatrixValues, createdAt: string)

  /** `list_entries` of the rows: one item per row, in order. */
  function Listing(rows: seq<Row>): (r: seq<Listed>)
    ensures |r| == |rows|
    ensures forall i :: 0 <= i < |rows| ==> r[i] == Listed(rows[i].hash, rows[i].key, rows[i].createdAt)
  {
    seq(|rows|, i requires 0 <= i < |rows| => Listed(rows[i].hash, rows[i].key, rows[i].createdAt))
  }

  predicate Matches(row: Row, h: string, k: MatrixValues) {
    row.hash == h && row.key == k
  }

  /** The storage engine keeps at most one row per (hash, canonical key). */
  predicate Unique(rows: seq<Row>) {
    forall i, j :: 0 <= i < j < |rows| ==> !Matches(rows[j], rows[i].hash, rows[i].key)
  }

  /** The index of the row found by (h, k). */
  function Find(rows: seq<Row>, h: string, k: MatrixValues): (r: Option<nat>)
    ensures r.Some? ==> r.value < |rows| && Matches(rows[r.value], h, k)
    ensures r.Some? ==> forall i :: 0 <= i < r.value ==> !Matches(rows[i], h, k)
    ensures r.None? ==> forall i :: 0 <= i < |rows| ==> !Matches(rows[i], h, k)
  {
    if |rows| == 0 then None
    else if Matches(rows[0], h, k) then Some(0)
    else match Find(rows[1..], h, k)
      case None => None
      case Some(j) => Some(j + 1)
  }

  /** `put_data`: the row replaces the one with its hash and key, in place,
      or is appended. */
  function PutRow(rows: seq<Row>, row: Row): (r: seq<Row>)
  {
    match Find(rows, row.hash, row.key)
    case Some(i) => rows[i := row]
    case None => rows + [row]
  }

  /** `delete`: whether a row was found, and the rows without it. */
  function DeleteRow(rows: seq<Row>, h: string, k: MatrixValues): (r: (bool, seq<Row>))
    ensures r.0 <==> Find(rows, h, k).Some?
    ensures |r.1| == if r.0 then |rows| - 1 else |rows|
  {
    match Find(rows, h, k)
    case Some(i) => (true, rows[..i] + rows[i + 1..])
    case None => (false, rows)
  }

  /** The variable names of the rows after the first, checked against the
      first row's: the first row that differs is reported. */
  function SchemaFrom(rows: seq<Row>, s: set<string>): (r: Result<Option<set<string>>, CacheError>)
    decreases |rows|
  {
    if |rows| == 0 then Success(Some(s))
    else if KeySet(rows[0].key) != s then Failure(InconsistentSchema(KeySet(rows[0].key), s))
    else SchemaFrom(rows[1..], s)
  }

  /** `get_matrix_schema`: None for an empty cache, otherwise the first
      entry's variable names, provided every entry has the same ones. */
  function SchemaOf(rows: seq<Row>): (r: Result<Option<set<string>>, CacheError>)
    ensures r == Success(None) <==> |rows| == 0
  {
    if |rows| == 0 then Success(None)
    else
      SchemaFromSome(rows[1..], KeySet(rows[0].key));
      SchemaFrom(rows[1..], KeySet(rows[0].key))
  }

  lemma {:induction false} SchemaFromSome(rows: seq<Row>, s: set<string>)
    ensures SchemaFrom(rows, s).Success? ==> SchemaFrom(rows, s) == Success(Some(s))
    ensures SchemaFrom(rows, s).Success? <==> forall i :: 0 <= i < |rows| ==> KeySet(rows[i].key) == s
    decreases |rows|
  {
    if |rows| > 0 {
      SchemaFromSome(rows[1..], s);
      assert forall i :: 1 <= i < |rows| ==> rows[i] == rows[1..][i - 1];
    }
  }

  /** The schema check succeeds exactly when every row has the same
      variable names, and then it reports them. */
  lemma SchemaOfConsistent(rows: seq<Row>)
    ensures SchemaOf(rows).Success? <==>
            forall i, j :: 0 <= i < |rows| && 0 <= j < |rows| ==> KeySet(rows[i].key) == KeySet(rows[j].key)
    ensures forall s :: SchemaOf(rows) == Success(Some(s)) ==>
            forall i :: 0 <= i < |rows| ==> KeySet(rows[i].key) == s
  {
    if |rows| > 0 {
      var s := KeySet(rows[0].key);
      SchemaFromSome(rows[1..], s);
      assert forall i :: 1 <= i < |rows| ==> rows[i] == rows[1..][i - 1];
    }
  }

  /** `validate_matrix_keys`: None when the keys are acceptable. */
  function ValidateKeys(rows: seq<Row>, kd: MatrixValues): (r: Option<CacheError>)
    ensures |rows| == 0 ==> r.None?
    ensures SchemaOf(rows).Failure? ==> r == Some(SchemaOf(rows).error)
    ensures SchemaOf(rows).Success? && SchemaOf(rows).value.Some? ==>
      (r.None? <==> KeySet(kd) == SchemaOf(rows).value.value) &&
      (r.Some? ==> r.value == SchemaMismatch(KeySet(kd), SchemaOf(rows).value.value))
  {
    match SchemaOf(rows)
    case Failure(err) => Some(err)
    case Success(None) => None
    case Success(Some(s)) => if KeySet(kd) != s then Some(SchemaMismatch(KeySet(kd), s)) else None
  }

  /** `put` on an open cache: the hash used, and the new rows. */
  function CachePut(sha: Sha256, rows: seq<Row>, kd: MatrixValues, e: EntryData, now: string): (r: Result<(string, seq<Row>), CacheError>)
    ensures ValidateKeys(rows, kd).Some? <==> r.Failure?
    ensures r.Failure? ==> r.error == ValidateKeys(rows, kd).value
    ensures r.Success? ==> r.value.0 == ComputeHash(sha, kd)
  {
    match ValidateKeys(rows, kd)
    case Some(err) => Failure(err)
    case None =>
      var h := ComputeHash(sha, kd);
      var stored := StorageOf(e);
      Success((h, PutRow(rows, Row(h, KeyJson(kd), stored.0, stored.1, now))))
  }

  /** `exists` on an open cache. */
  function CacheExists(sha: Sha256, rows: seq<Row>, kd: MatrixValues): (r: bool)
  {
    Find(rows, ComputeHash(sha, kd), KeyJson(kd)).Some?
  }

  /** `get` on an open cache. */
  function CacheGet(sha: Sha256, rows: seq<Row>, kd: MatrixValues): (r: Result<Option<EntryData>, CacheError>)
    ensures r == Success(None) <==> !CacheExists(sha, rows, kd)
  {
    match Find(rows, ComputeHash(sha, kd), KeyJson(kd))
    case None => Success(None)
    case Some(i) =>
      match EntryFromStorage(Some(rows[i].data), Some(rows[i].metadata))
      case Failure(err) => Failure(EntryFailure(err))
      case Success(e) => Success(Some(e))
  }

  /** `delete` on an open cache: whether the entry existed, and the rows. */
  function CacheDelete(sha: Sha256, rows: seq<Row>, kd: MatrixValues): (r: (bool, seq<Row>))
    ensures r.0 == CacheExists(sha, rows, kd)
  {
    DeleteRow(rows, ComputeHash(sha, kd), KeyJson(kd))
  }

  /** `put_from_action` on an open cache. */
  function CachePutFromAction(sha: Sha256, rows: seq<Row>, kd: MatrixValues, md: Metadata, objs: seq<Record>, now: string)
    : (r: Result<(string, seq<Row>), CacheError>)
    ensures EntryFromActionResult(md, objs).Failure? ==> r == Failure(EntryFailure(EntryFromActionResult(md, objs).error))
    ensures EntryFromActionResult(md, objs).Success? ==> r == CachePut(sha, rows, kd, EntryFromActionResult(md, objs).value, now)
  {
    match EntryFromActionResult(md, objs)
    case Failure(err) => Failure(EntryFailure(err))
    case Success(e) => CachePut(sha, rows, kd, e, now)
  }

  /** The first matching row is the one `Find` reports. */
  lemma FindFirst(rows: seq<Row>, h: string, k: MatrixValues, y: nat)
    requires y < |rows| && Matches(rows[y], h, k)
    requires forall j :: 0 <= j < y ==> !Matches(rows[j], h, k)
    ensures Find(rows, h, k) == Some(y)
  {
    var r := Find(rows, h, k);
    assert r.Some?;
    assert !(r.value < y);
    assert !(y < r.value);
  }

  /** What replacing or appending a row does to every lookup. */
  lemma PutRowFind(rows: seq<Row>, row: Row, h: string, k: MatrixValues)
    ensures Matches(row, h, k) ==>
      Find(PutRow(rows, row), h, k).Some? && PutRow(rows, row)[Find(PutRow(rows, row), h, k).value] == row
    ensures !Matches(row, h, k) ==> Find(PutRow(rows, row), h, k) == Find(rows, h, k)
    ensures !Matches(row, h, k) && Find(rows, h, k).Some? ==>
      PutRow(rows, row)[Find(rows, h, k).value] == rows[Find(rows, h, k).value]
    ensures |PutRow(rows, row)| == |rows| + if Find(rows, row.hash, row.key).Some? then 0 else 1
  {
    var r := PutRow(rows, row);
    match Find(rows, row.hash, row.key)
    case Some(i) =>
      if Matches(row, h, k) {
        FindFirst(r, h, k, i);
      } else {
        match Find(rows, h, k)
        case Some(x) => FindFirst(r, h, k, x);
        case None =>
      }
    case None =>
      if Matches(row, h, k) {
        FindFirst(r, h, k, |rows|);
      } else {
        match Find(rows, h, k)
        case Some(x) => FindFirst(r, h, k, x);
        case None =>
      }
  }

  /** What removing row `i` does to a lookup of another key. */
  lemma DeleteRowFind(rows: seq<Row>, i: nat, h: string, k: MatrixValues)
    requires i < |rows| && !Matches(rows[i], h, k)
    ensures var r := rows[..i] + rows[i + 1..];
      Find(r, h, k).Some? == Find(rows, h, k).Some? &&
      (Find(r, h, k).Some? ==> r[Find(r, h, k).value] == rows[Find(rows, h, k).value])
  {
    var r := rows[..i] + rows[i + 1..];
    assert forall j :: 0 <= j < |r| ==> r[j] == if j < i then rows[j] else rows[j + 1];
    match Find(rows, h, k)
    case Some(x) =>
      var y := if x < i then x else x - 1;
      FindFirst(r, h, k, y);
    case None =>
  }

  /** Putting a row keeps at most one row per (hash, key). */
  lemma PutRowUnique(rows: seq<Row>, row: Row)
    requires Unique(rows)
    ensures Unique(PutRow(rows, row))
  {
    var r := PutRow(rows, row);
    forall a, b | 0 <= a < b < |r| ensures !Matches(r[b], r[a].hash, r[a].key) {
      match Find(rows, row.hash, row.key)
      case Some(i) =>
        if a == i {
          assert !Matches(rows[b], rows[i].hash, rows[i].key);
        } else if b == i {
          assert !Matches(rows[i], rows[a].hash, rows[a].key);
        }
      case None =>
    }
  }

  /** Deleting a row keeps at most one row per (hash, key). */
  lemma DeleteRowUnique(rows: seq<Row>, h: string, k: MatrixValues)
    requires Unique(rows)
    ensures Unique(DeleteRow(rows, h, k).1)
    ensures Find(DeleteRow(rows, h, k).1, h, k).None?
  {
    match Find(rows, h, k)
    case Some(i) =>
      var r := rows[..i] + rows[i + 1..];
      assert forall j :: 0 <= j < |r| ==> r[j] == if j < i then rows[j] else rows[j + 1];
      forall j | 0 <= j < |r| ensures !Matches(r[j], h, k) {
        if j >= i {
          assert !Matches(rows[j + 1], rows[i].hash, rows[i].key);
        }
      }
    case None =>
  }

  /** After a successful put the key is present and `get` returns the entry
      that was put. */
  lemma PutThenGet(sha: Sha256, rows: seq<Row>, kd: MatrixValues, e: EntryData, now: string)
    requires CachePut(sha, rows, kd, e, now).Success?
    ensures CacheExists(sha, CachePut(sha, rows, kd, e, now).value.1, kd)
    ensures CacheGet(sha, CachePut(sha, rows, kd, e, now).value.1, kd) == Success(Some(e))
  {
    var h := ComputeHash(sha, kd);
    var row := Row(h, KeyJson(kd), StorageOf(e).0, StorageOf(e).1, now);
    PutRowFind(rows, row, h, KeyJson(kd));
    StorageRoundTrip(e);
  }

  /** After a successful `put_from_action`, `get` returns the entry built
      from the action result. */
  lemma PutFromActionThenGet(sha: Sha256, rows: seq<Row>, kd: MatrixValues, md: Metadata, objs: seq<Record>, now: string)
    requires CachePutFromAction(sha, rows, kd, md, objs, now).Success?
    ensures EntryFromActionResult(md, objs).Success?
    ensures CacheGet(sha, CachePutFromAction(sha, rows, kd, md, objs, now).value.1, kd)
            == Success(Some(EntryFromActionResult(md, objs).value))
  {
    PutThenGet(sha, rows, kd, EntryFromActionResult(md, objs).value, now);
  }

  /** A put leaves every other key's entry as it was, even one whose
      truncated hash collides with the key's: only the canonical key
      identifies an entry. */
  lemma PutLeavesOthers(sha: Sha256, rows: seq<Row>, kd: MatrixValues, e: EntryData, now: string, other: MatrixValues)
    requires CachePut(sha, rows, kd, e, now).Success?
    requires KeyJson(other) != KeyJson(kd)
    ensures CacheExists(sha, CachePut(sha, rows, kd, e, now).value.1, other) == CacheExists(sha, rows, other)
    ensures CacheGet(sha, CachePut(sha, rows, kd, e, now).value.1, other) == CacheGet(sha, rows, other)
  {
    var h := ComputeHash(sha, kd);
    var row := Row(h, KeyJson(kd), StorageOf(e).0, StorageOf(e).1, now);
    PutRowFind(rows, row, ComputeHash(sha, other), KeyJson(other));
  }

  /** A put leaves the presence of every other key as it was. */
  lemma PutLeavesAll(sha: Sha256, rows: seq<Row>, kd: MatrixValues, e: EntryData, now: string)
    requires CachePut(sha, rows, kd, e, now).Success?
    ensures forall other :: KeyJson(other) != KeyJson(kd) ==>
      CacheExists(sha, CachePut(sha, rows, kd, e, now).value.1, other) == CacheExists(sha, rows, other)
  {
    forall other | KeyJson(other) != KeyJson(kd)
      ensures CacheExists(sha, CachePut(sha, rows, kd, e, now).value.1, other) == CacheExists(sha, rows, other)
    {
      PutLeavesOthers(sha, rows, kd, e, now, other);
    }
  }

  /** A put adds one entry for a new key and replaces the entry of an
      existing one. */
  lemma PutCount(sha: Sha256, rows: seq<Row>, kd: MatrixValues, e: EntryData, now: string)
    requires CachePut(sha, rows, kd, e, now).Success?
    ensures |CachePut(sha, rows, kd, e, now).value.1| == |rows| + if CacheExists(sha, rows, kd) then 0 else 1
  {
    var h := ComputeHash(sha, kd);
    var row := Row(h, KeyJson(kd), StorageOf(e).0, StorageOf(e).1, now);
    PutRowFind(rows, row, h, KeyJson(kd));
  }

  /** A put whose variable names differ from the cache's fails and stores
      nothing; an empty cache accepts any names. */
  lemma PutSchemaMismatch(sha: Sha256, rows: seq<Row>, kd: MatrixValues, e: EntryData, now: string, s: set<string>)
    requires SchemaOf(rows) == Success(Some(s)) && KeySet(kd) != s
    ensures CachePut(sha, rows, kd, e, now) == Failure(SchemaMismatch(KeySet(kd), s))
  {
  }

  /** A non-empty list of rows that all have the names `s` has schema `s`. */
  lemma SchemaOfAll(rows: seq<Row>, s: set<string>)
    requires |rows| > 0 && forall i :: 0 <= i < |rows| ==> KeySet(rows[i].key) == s
    ensures SchemaOf(rows) == Success(Some(s))
  {
    SchemaFromSome(rows[1..], s);
    assert forall i :: 0 <= i < |rows| - 1 ==> rows[1..][i] == rows[i + 1];
  }

  /** Keys that pass validation have the names every row has. */
  lemma ValidatedRows(rows: seq<Row>, kd: MatrixValues)
    requires ValidateKeys(rows, kd).None?
    ensures forall i :: 0 <= i < |rows| ==> KeySet(rows[i].key) == KeySet(kd)
  {
    if |rows| > 0 {
      var s := KeySet(rows[0].key);
      SchemaFromSome(rows[1..], s);
      assert SchemaOf(rows) == Success(Some(KeySet(kd)));
      assert forall i :: 1 <= i < |rows| ==> rows[i] == rows[1..][i - 1];
    }
  }

  /** After a successful put every entry has the put key's variable names:
      put keeps the cache's schema consistent. */
  lemma PutKeepsSchema(sha: Sha256, rows: seq<Row>, kd: MatrixValues, e: EntryData, now: string)
    requires CachePut(sha, rows, kd, e, now).Success?
    ensures SchemaOf(CachePut(sha, rows, kd, e, now).value.1) == Success(Some(KeySet(kd)))
  {
    var h := ComputeHash(sha, kd);
    var row := Row(h, KeyJson(kd), StorageOf(e).0, StorageOf(e).1, now);
    var r := PutRow(rows, row);
    assert KeySet(row.key) == KeySet(kd) by {
      KeyJsonContent(kd);
      assert KeySet(row.key) == ToMap(row.key).Keys;
    }
    ValidatedRows(rows, kd);
    assert |r| > 0 && forall i :: 0 <= i < |r| ==> KeySet(r[i].key) == KeySet(kd) by {
      match Find(rows, row.hash, row.key)
      case Some(i) =>
      case None =>
    }
    SchemaOfAll(r, KeySet(kd));
  }

  /** `delete` reports whether the entry existed; afterwards it does not,
      and one entry fewer remains when it did. */
  lemma DeleteRemoves(sha: Sha256, rows: seq<Row>, kd: MatrixValues)
    requires Unique(rows)
    ensures !CacheExists(sha, CacheDelete(sha, rows, kd).1, kd)
    ensures CacheGet(sha, CacheDelete(sha, rows, kd).1, kd) == Success(None)
    ensures Unique(CacheDelete(sha, rows, kd).1)
  {
    DeleteRowUnique(rows, ComputeHash(sha, kd), KeyJson(kd));
  }

  /** A delete leaves every other key's entry as it was. */
  lemma DeleteLeavesOthers(sha: Sha256, rows: seq<Row>, kd: MatrixValues, other: MatrixValues)
    requires KeyJson(other) != KeyJson(kd)
    ensures CacheGet(sha, CacheDelete(sha, rows, kd).1, other) == CacheGet(sha, rows, other)
  {
    var h, k := ComputeHash(sha, other), KeyJson(other);
    match Find(rows, ComputeHash(sha, kd), KeyJson(kd))
    case Some(i) =>
      var r := rows[..i] + rows[i + 1..];
      assert CacheDelete(sha, rows, kd).1 == r;
      assert !Matches(rows[i], h, k);
      DeleteRowFind(rows, i, h, k);
      SameRowSameGet(sha, rows, r, other);
    case None =>
  }

  /** A lookup depends only on the row it finds. */
  lemma SameRowSameGet(sha: Sha256, rows: seq<Row>, r: seq<Row>, kd: MatrixValues)
    requires Find(r, ComputeHash(sha, kd), KeyJson(kd)).Some? == Find(rows, ComputeHash(sha, kd), KeyJson(kd)).Some?
    requires Find(r, ComputeHash(sha, kd), KeyJson(kd)).Some? ==>
      r[Find(r, ComputeHash(sha, kd), KeyJson(kd)).value] == rows[Find(rows, ComputeHash(sha, kd), KeyJson(kd)).value]
    ensures CacheGet(sha, r, kd) == CacheGet(sha, rows, kd)
  {
  }

  /** Lookups do not depend on the order in which the key's dict was built. */
  lemma KeyOrderIrrelevant(sha: Sha256, rows: seq<Row>, a: MatrixValues, b: MatrixValues)
    requires ToMap(a) == ToMap(b)
    ensures CacheExists(sha, rows, a) == CacheExists(sha, rows, b)
    ensures CacheGet(sha, rows, a) == CacheGet(sha, rows, b)
  {
    KeyJsonOrderIndependent(a, b);
    HashOrderIndependent(sha, a, b);
  }

  /** Nor do puts. */
  lemma PutKeyOrderIrrelevant(sha: Sha256, rows: seq<Row>, a: MatrixValues, b: MatrixValues, e: EntryData, now: string)
    requires ToMap(a) == ToMap(b)
    ensures CachePut(sha, rows, a, e, now) == CachePut(sha, rows, b, e, now)
  {
    KeyJsonOrderIndependent(a, b);
    HashOrderIndependent(sha, a, b);
    assert KeySet(a) == ToMap(a).Keys == KeySet(b);
    assert ValidateKeys(rows, a) == ValidateKeys(rows, b);
  }

  /** `WorkflowCache`: a handle on a storage engine at `dbPath`, connected
      between `Open` and `Close`. `rows` is what the engine holds. */
  class WorkflowCache {
    const dbPath: string
    const sha: Sha256
    var connected: bool
    var rows: seq<Row>

    predicate Valid()
      reads this
    {
      Unique(rows)
    }

    /** `is_memory`: ":memory:" names a database that lives only while
        connected. */
    predicate IsMemory()
      ensures IsMemory() <==> dbPath == ":memory:"
    {
      dbPath == ":memory:"
    }

    /** `WorkflowCache(db_path)`; `stored` is what the database file holds. */
    constructor (dbPath: string, sha: Sha256, stored: seq<Row>)
      requires Unique(stored)
      ensures this.dbPath == dbPath && this.sha == sha
      ensures !connected && rows == stored && Valid()
    {
      this.dbPath := dbPath;
      this.sha := sha;
      connected := false;
      rows := stored;
    }

    /** `open`: fails when already connected; an in-memory database starts
        empty. */
    method Open() returns (err: Option<CacheError>)
      requires Valid()
      modifies this
      ensures Valid() && connected
      ensures old(connected) ==> err == Some(AlreadyConnected) && rows == old(rows)
      ensures !old(connected) ==> err.None? && rows == if IsMemory() then [] else old(rows)
    {
      if connected {
        return Some(AlreadyConnected);
      }
      connected := true;
      if IsMemory() {
        rows := [];
      }
      return None;
    }

    /** `close`: closing twice is harmless. */
    method Close()
      modifies this
      ensures !connected && rows == old(rows)
    {
      connected := false;
    }

    /** `list_entries`: one item per row, in the engine's order, with the
        matrix values read back from the canonical key. */
    method ListEntries() returns (r: Result<seq<Listed>, CacheError>)
      ensures !connected ==> r == Failure(NotConnected)
      ensures connected ==> r.Success? && |r.value| == |rows|
      ensures connected ==> forall i :: 0 <= i < |rows| ==>
        r.value[i] == Listed(rows[i].hash, rows[i].key, rows[i].createdAt)
      ensures connected ==> r.value == Listing(rows)
    {
      if !connected {
        return Failure(NotConnected);
      }
      var entries: seq<Listed> := [];
      var i := 0;
      while i < |rows|
        invariant 0 <= i <= |rows| && |entries| == i
        invariant forall j :: 0 <= j < i ==> entries[j] == Listed(rows[j].hash, rows[j].key, rows[j].createdAt)
      {
        entries := entries + [Listed(rows[i].hash, rows[i].key, rows[i].createdAt)];
        i := i + 1;
      }
      return Success(entries);
    }

    /** `entry_count`. */
    method EntryCount() returns (r: Result<nat, CacheError>)
      ensures r == if connected then Success(|rows|) else Failure(NotConnected)
    {
      if !connected {
        return Failure(NotConnected);
      }
      return Success(|rows|);
    }

    /** `get_matrix_schema`: the first entry's names, once every later
        entry is checked against them. */
    method GetMatrixSchema() returns (r: Result<Option<set<string>>, CacheError>)
      ensures r == if connected then SchemaOf(rows) else Failure(NotConnected)
    {
      var listed := ListEntries();
      if listed.Failure? {
        return Failure(listed.error);
      }
      var entries := listed.value;
      if |entries| == 0 {
        return Success(None);
      }
      var first := KeySet(entries[0].matrixValues);
      var i := 1;
      while i < |entries|
        invariant 1 <= i <= |entries|
        invariant SchemaFrom(rows[i..], first) == SchemaOf(rows)
      {
        var schema := KeySet(entries[i].matrixValues);
        if schema != first {
          return Failure(InconsistentSchema(schema, first));
        }
        assert rows[i..][1..] == rows[i + 1..];
        i := i + 1;
      }
      return Success(Some(first));
    }

    /** `validate_matrix_keys`: None when `kd` may be stored. */
    method ValidateMatrixKeys(kd: MatrixValues) returns (err: Option<CacheError>)
      ensures err == if connected then ValidateKeys(rows, kd) else Some(NotConnected)
    {
      var schema := GetMatrixSchema();
      match schema
      case Failure(e) =>
        return Some(e);
      case Success(None) =>
        return None;
      case Success(Some(s)) =>
        if KeySet(kd) != s {
          return Some(SchemaMismatch(KeySet(kd), s));
        }
        return None;
    }

    /** `put`: validate the names, then store the entry under its hash and
        canonical key, replacing any entry with the same key. */
    method Put(kd: MatrixValues, entry: CacheEntry, now: string) returns (r: Result<string, CacheError>)
      requires Valid()
      modifies this
      ensures Valid() && connected == old(connected)
      ensures !old(connected) ==> r == Failure(NotConnected) && rows == old(rows)
      ensures old(connected) && CachePut(sha, old(rows), kd, entry.Data(), now).Failure? ==>
        r == Failure(CachePut(sha, old(rows), kd, entry.Data(), now).error) && rows == old(rows)
      ensures old(connected) && CachePut(sha, old(rows), kd, entry.Data(), now).Success? ==>
        r == Success(CachePut(sha, old(rows), kd, entry.Data(), now).value.0) &&
        rows == CachePut(sha, old(rows), kd, entry.Data(), now).value.1
    {
      var err := ValidateMatrixKeys(kd);
      if err.Some? {
        return Failure(err.value);
      }
      var h := ComputeHash(sha, kd);
      var key := KeyJson(kd);
      var stored := entry.ToStorage();
      var row := Row(h, key, stored.0, stored.1, now);
      PutRowUnique(rows, row);
      rows := PutRow(rows, row);
      return Success(h);
    }

    /** `get`: the stored entry, rebuilt, or None. */
    method Get(kd: MatrixValues) returns (r: Result<Option<CacheEntry>, CacheError>)
      ensures !connected ==> r == Failure(NotConnected)
      ensures connected ==> (r.Success? <==> CacheGet(sha, rows, kd).Success?)
      ensures connected && r.Failure? ==> r.error == CacheGet(sha, rows, kd).error
      ensures connected && r.Success? ==> (r.value.Some? <==> CacheGet(sha, rows, kd).value.Some?)
      ensures connected && r.Success? && r.value.Some? ==>
        fresh(r.value.value) && r.value.value.Data() == CacheGet(sha, rows, kd).value.value
    {
      var h := ComputeHash(sha, kd);
      var key := KeyJson(kd);
      if !connected {
        return Failure(NotConnected);
      }
      match Find(rows, h, key)
      case None =>
        return Success(None);
      case Some(i) =>
        var entry := CacheEntry.FromStorage(Some(rows[i].data), Some(rows[i].metadata));
        match entry
        case Failure(e) =>
          return Failure(EntryFailure(e));
        case Success(c) =>
          return Success(Some(c));
    }

    /** `get_or_create`: the stored entry, or a new empty one. */
    method GetOrCreate(kd: MatrixValues) returns (r: Result<CacheEntry, CacheError>)
      ensures !connected ==> r == Failure(NotConnected)
      ensures connected ==> (r.Success? <==> CacheGet(sha, rows, kd).Success?)
      ensures connected && r.Failure? ==> r.error == CacheGet(sha, rows, kd).error
      ensures connected && r.Success? ==>
        fresh(r.value) && r.value.Data() == CacheGet(sha, rows, kd).value.GetOr(EmptyEntry)
    {
      var got := Get(kd);
      match got
      case Failure(e) =>
        return Failure(e);
      case Success(None) =>
        var empty := new CacheEntry();
        return Success(empty);
      case Success(Some(c)) =>
        return Success(c);
    }

    /** `exists`. */
    method Exists(kd: MatrixValues) returns (r: Result<bool, CacheError>)
      ensures r == if connected then Success(CacheExists(sha, rows, kd)) else Failure(NotConnected)
    {
      var h := ComputeHash(sha, kd);
      var key := KeyJson(kd);
      if !connected {
        return Failure(NotConnected);
      }
      return Success(Find(rows, h, key).Some?);
    }

    /** `delete`: whether the entry existed. */
    method Delete(kd: MatrixValues) returns (r: Result<bool, CacheError>)
      requires Valid()
      modifies this
      ensures Valid() && connected == old(connected)
      ensures !old(connected) ==> r == Failure(NotConnected) && rows == old(rows)
      ensures old(connected) ==>
        r == Success(CacheDelete(sha, old(rows), kd).0) && rows == CacheDelete(sha, old(rows), kd).1
    {
      var h := ComputeHash(sha, kd);
      var key := KeyJson(kd);
      if !connected {
        return Failure(NotConnected);
      }
      DeleteRowUnique(rows, h, key);
      var deleted := DeleteRow(rows, h, key);
      rows := deleted.1;
      return Success(deleted.0);
    }

    /** `put_from_action`: build the entry from an action result, then
        `put` it. */
    method PutFromAction(kd: MatrixValues, md: Metadata, objs: seq<Record>, now: string) returns (r: Result<string, CacheError>)
      requires Valid()
      modifies this
      ensures Valid() && connected == old(connected)
      ensures EntryFromActionResult(md, objs).Success? && !old(connected) ==>
        r == Failure(NotConnected) && rows == old(rows)
      ensures (old(connected) || EntryFromActionResult(md, objs).Failure?) ==>
        (r.Success? <==> CachePutFromAction(sha, old(rows), kd, md, objs, now).Success?)
      ensures (old(connected) || EntryFromActionResult(md, objs).Failure?) && r.Failure? ==>
        r.error == CachePutFromAction(sha, old(rows), kd, md, objs, now).error && rows == old(rows)
      ensures old(connected) && r.Success? ==>
        r.value == CachePutFromAction(sha, old(rows), kd, md, objs, now).value.0 &&
        rows == CachePutFromAction(sha, old(rows), kd, md, objs, now).value.1
    {
      var entry := CacheEntry.FromActionResult(md, objs);
      if entry.Failure? {
        return Failure(EntryFailure(entry.error));
      }
      r := Put(kd, entry.value, now);
    }
  }
}
