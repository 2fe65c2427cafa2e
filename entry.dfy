/**
 * entry.py: a cached result is free-form metadata plus named, typed
 * objects. `CacheEntry` is the mutable record the source passes around;
 * `EntryData` is its value. The storage form (what the external store
 * keeps) and the action-result form (what actions return) are conversions
 * of that value, each with its inverse.
 */
module Entry {
  import opened Wrappers
  import opened Assoc
  import opened Values

  /** A named object's type tag and payload. The payload is `None` when an
      action result omitted it (`obj.get("content")`). */
  datatype CacheObject = CacheObject(objType: string, content: Option<string>)

  /** A dict of string-or-None values: `CacheObject.to_dict()` and the
      object dicts of an action result. */
  type Record = map<string, Option<string>>

  type Metadata = map<string, Json>

  type Objects = Dict<CacheObject>

  /** The value of a `CacheEntry`: its metadata and its objects, in order. */
  datatype EntryData = EntryData(metadata: Metadata, objects: Objects)

  const EmptyEntry: EntryData := EntryData(map[], [])

  /** `KeyError` for a missing key; `NotAString` where the source would keep
      a `None` in a field this model types as a string. */
  datatype EntryError = KeyError(key: string) | NotAString(key: string)

  /** `CacheObject.to_dict`. */
  function ToDict(o: CacheObject): (r: Record)
    ensures r.Keys == {"type", "content"}
    ensures FromDict(r) == Success(o)
  {
    map["type" := Some(o.objType), "content" := o.content]
  }

  /** `CacheObject.from_dict`: `data["type"]` and `data["content"]`. */
  function FromDict(d: Record): (r: Result<CacheObject, EntryError>)
    ensures r.Success? <==> "type" in d && "content" in d && d["type"].Some?
    ensures r.Success? ==> r.value.content == d["content"] && Some(r.value.objType) == d["type"]
  {
    if "type" !in d then Failure(KeyError("type"))
    else if "content" !in d then Failure(KeyError("content"))
    else if d["type"].None? then Failure(NotAString("type"))
    else Success(CacheObject(d["type"].value, d["content"]))
  }

  /** `{name: obj.to_dict() for name, obj in objects.items()}`. */
  function RecordsOf(objs: seq<(string, CacheObject)>): (r: seq<(string, Record)>)
    ensures Keys(r) == Keys(objs)
    ensures forall i :: 0 <= i < |r| ==> r[i].1 == ToDict(objs[i].1)
  {
    if |objs| == 0 then [] else [(objs[0].0, ToDict(objs[0].1))] + RecordsOf(objs[1..])
  }

  /** `to_storage`: (objects as records, metadata). */
  function StorageOf(e: EntryData): (r: (Dict<Record>, Metadata))
    ensures Keys(r.0) == Keys(e.objects) && r.1 == e.metadata
  {
    var data := RecordsOf(e.objects);
    assert DistinctKeys(data) by {
      forall i, j | 0 <= i < j < |data| ensures data[i].0 != data[j].0 {
        assert Keys(data)[i] == Keys(e.objects)[i];
        assert Keys(data)[j] == Keys(e.objects)[j];
      }
    }
    (data, e.metadata)
  }

  /** The loop of `from_storage`: `entry.objects[name] = from_dict(obj)` for
      each stored record in turn. */
  function DecodeRecords(acc: Objects, data: seq<(string, Record)>): (r: Result<Objects, EntryError>)
    decreases |data|
  {
    if |data| == 0 then Success(acc)
    else match FromDict(data[0].1)
      case Failure(err) => Failure(err)
      case Success(o) => DecodeRecords(Store(acc, data[0].0, o), data[1..])
  }

  /** `from_storage`: `metadata or {}`, and no objects when `data` is None
      or empty. */
  function EntryFromStorage(data: Option<Dict<Record>>, metadata: Option<Metadata>): (r: Result<EntryData, EntryError>)
    ensures data.None? && metadata.None? ==> r == Success(EmptyEntry)
    ensures r.Success? ==> r.value.metadata == metadata.GetOr(map[])
  {
    var md := if metadata.None? || metadata.value == map[] then map[] else metadata.value;
    if data.None? || data.value == [] then Success(EntryData(md, []))
    else match DecodeRecords([], data.value)
      case Failure(err) => Failure(err)
      case Success(objs) => Success(EntryData(md, objs))
  }

  lemma {:induction false} DecodeRecordsOf(acc: Objects, objs: Objects)
    requires KeySet(acc) !! KeySet(objs)
    ensures DecodeRecords(acc, RecordsOf(objs)).Success?
    ensures DecodeRecords(acc, RecordsOf(objs)).value == acc + objs
    decreases |objs|
  {
    if |objs| == 0 {
      assert acc + objs == acc;
    } else {
      var acc' := Store(acc, objs[0].0, objs[0].1);
      var rest: Objects := ShiftHead(acc, objs);
      assert DecodeRecords(acc, RecordsOf(objs)) == DecodeRecords(acc', RecordsOf(rest)) by {
        assert RecordsOf(objs)[1..] == RecordsOf(rest);
      }
      DecodeRecordsOf(acc', rest);
    }
  }

  /** Moving the first pair of `objs` to the end of a disjoint `acc`. */
  lemma ShiftHead(acc: Objects, objs: Objects) returns (rest: Objects)
    requires KeySet(acc) !! KeySet(objs) && |objs| > 0
    ensures rest == objs[1..]
    ensures Store(acc, objs[0].0, objs[0].1) == acc + [objs[0]]
    ensures KeySet(acc + [objs[0]]) !! KeySet(rest)
    ensures (acc + [objs[0]]) + rest == acc + objs
  {
    SplitKeySet(objs);
    HeadNotInTail(objs);
    rest := objs[1..];
    assert objs == [objs[0]] + rest;
  }

  /** Storing an entry and reading it back gives the same entry. */
  lemma StorageRoundTrip(e: EntryData)
    ensures EntryFromStorage(Some(StorageOf(e).0), Some(StorageOf(e).1)) == Success(e)
  {
    var data := StorageOf(e).0;
    assert data == RecordsOf(e.objects);
    if |e.objects| == 0 {
      assert data == [];
    } else {
      assert |data| == |Keys(data)| > 0;
      DecodeRecordsOf([], e.objects);
      assert [] + e.objects == e.objects;
    }
  }

  /** The name an action-result object is filed under:
      `obj.get("name", obj.get("type", "unknown"))`. */
  function ActionName(obj: Record): (r: Option<string>)
    ensures "name" in obj ==> r == obj["name"]
    ensures "name" !in obj && "type" !in obj ==> r == Some("unknown")
  {
    if "name" in obj then obj["name"]
    else if "type" in obj then obj["type"]
    else Some("unknown")
  }

  /** One object of `from_action_result`: `obj["type"]` raises `KeyError`
      when absent; a missing "content" becomes `None`. */
  function ActionObjectOf(obj: Record): (r: Result<(string, CacheObject), EntryError>)
    ensures "type" !in obj ==> r == Failure(KeyError("type"))
    ensures r.Success? ==> Some(r.value.0) == ActionName(obj) && Some(r.value.1.objType) == obj["type"]
    ensures r.Success? ==> r.value.1.content == (if "content" in obj then obj["content"] else None)
  {
    if "type" !in obj then Failure(KeyError("type"))
    else if ActionName(obj).None? then Failure(NotAString("name"))
    else if obj["type"].None? then Failure(NotAString("type"))
    else Success((ActionName(obj).value,
                  CacheObject(obj["type"].value, if "content" in obj then obj["content"] else None)))
  }

  /** The loop of `from_action_result`: `entry.objects[name] = ...` for each
      object in list order. */
  function DecodeActions(acc: Objects, objs: seq<Record>): (r: Result<Objects, EntryError>)
    decreases |objs|
  {
    if |objs| == 0 then Success(acc)
    else match ActionObjectOf(objs[0])
      case Failure(err) => Failure(err)
      case Success(p) => DecodeActions(Store(acc, p.0, p.1), objs[1..])
  }

  /** `from_action_result`: the metadata is copied, the objects are filed
      by name. */
  function EntryFromActionResult(metadata: Metadata, objs: seq<Record>): (r: Result<EntryData, EntryError>)
    ensures r.Success? ==> r.value.metadata == metadata
    ensures objs == [] ==> r == Success(EntryData(metadata, []))
  {
    match DecodeActions([], objs)
    case Failure(err) => Failure(err)
    case Success(o) => Success(EntryData(metadata, o))
  }

  /** `{"type": obj.type, "name": name, "content": obj.content}`. */
  function ActionRecord(name: string, o: CacheObject): (r: Record)
    ensures r.Keys == {"type", "name", "content"}
    ensures ActionObjectOf(r) == Success((name, o))
  {
    map["type" := Some(o.objType), "name" := Some(name), "content" := o.content]
  }

  function ActionRecordsOf(objs: seq<(string, CacheObject)>): (r: seq<Record>)
    ensures |r| == |objs|
    ensures forall i :: 0 <= i < |r| ==> r[i] == ActionRecord(objs[i].0, objs[i].1)
  {
    if |objs| == 0 then [] else [ActionRecord(objs[0].0, objs[0].1)] + ActionRecordsOf(objs[1..])
  }

  /** `to_action_result`: (metadata copy, one record per object in order). */
  function ActionResultOf(e: EntryData): (r: (Metadata, seq<Record>))
    ensures r.0 == e.metadata && |r.1| == |e.objects|
    ensures forall i :: 0 <= i < |r.1| ==> ActionObjectOf(r.1[i]) == Success(e.objects[i])
  {
    (e.metadata, ActionRecordsOf(e.objects))
  }

  lemma {:induction false} DecodeActionsOf(acc: Objects, objs: Objects)
    requires KeySet(acc) !! KeySet(objs)
    ensures DecodeActions(acc, ActionRecordsOf(objs)).Success?
    ensures DecodeActions(acc, ActionRecordsOf(objs)).value == acc + objs
    decreases |objs|
  {
    if |objs| == 0 {
      assert acc + objs == acc;
    } else {
      var acc' := Store(acc, objs[0].0, objs[0].1);
      var rest: Objects := ShiftHead(acc, objs);
      assert DecodeActions(acc, ActionRecordsOf(objs)) == DecodeActions(acc', ActionRecordsOf(rest)) by {
        assert ActionRecordsOf(objs)[1..] == ActionRecordsOf(rest);
      }
      DecodeActionsOf(acc', rest);
    }
  }

  /** Converting an entry to an action result and back gives the same
      entry. */
  lemma ActionResultRoundTrip(e: EntryData)
    ensures EntryFromActionResult(ActionResultOf(e).0, ActionResultOf(e).1) == Success(e)
  {
    DecodeActionsOf([], e.objects);
    assert [] + e.objects == e.objects;
  }

  /** `from_action_result` fails exactly when one of the objects fails. */
  lemma {:induction false} DecodeActionsFails(acc: Objects, objs: seq<Record>)
    ensures DecodeActions(acc, objs).Success? <==>
            forall i :: 0 <= i < |objs| ==> ActionObjectOf(objs[i]).Success?
    decreases |objs|
  {
    if |objs| > 0 {
      match ActionObjectOf(objs[0])
      case Failure(_) =>
      case Success(p) =>
        DecodeActionsFails(Store(acc, p.0, p.1), objs[1..]);
        assert forall i :: 1 <= i < |objs| ==> objs[i] == objs[1..][i - 1];
    }
  }

  /** The object that the last of `objs` named `n` describes; later objects
      with the same name replace earlier ones. */
  function LastNamed(objs: seq<Record>, n: string): (r: Option<CacheObject>)
    ensures r.Some? ==> exists i :: 0 <= i < |objs| && ActionObjectOf(objs[i]) == Success((n, r.value))
    decreases |objs|
  {
    if |objs| == 0 then None
    else
      var later := LastNamed(objs[1..], n);
      if later.Some? then
        assert exists i :: 0 <= i < |objs| - 1 && ActionObjectOf(objs[1..][i]) == Success((n, later.value));
        later
      else match ActionObjectOf(objs[0])
        case Success(p) => if p.0 == n then Some(p.1) else None
        case Failure(_) => None
  }

  /** After `from_action_result`, the object under each name is the last
      object in the list with that name. */
  lemma {:induction false} DecodeActionsLastWins(acc: Objects, objs: seq<Record>, n: string)
    requires DecodeActions(acc, objs).Success?
    ensures Get(DecodeActions(acc, objs).value, n) ==
            if LastNamed(objs, n).Some? then LastNamed(objs, n) else Get(acc, n)
    decreases |objs|
  {
    if |objs| > 0 {
      var p := ActionObjectOf(objs[0]).value;
      PutGet(acc, p.0, p.1, n);
      DecodeActionsLastWins(Store(acc, p.0, p.1), objs[1..], n);
    }
  }

  /** A mutable cache entry (`CacheEntry`). */
  class CacheEntry {
    var metadata: Metadata
    var objects: Objects

    /** `CacheEntry()`: no metadata and no objects. */
    constructor ()
      ensures Data() == EmptyEntry
    {
      metadata := map[];
      objects := [];
    }

    /** `CacheEntry(metadata=...)`. */
    constructor WithMetadata(md: Metadata)
      ensures Data() == EntryData(md, [])
    {
      metadata := md;
      objects := [];
    }

    function Data(): EntryData
      reads this
    {
      EntryData(metadata, objects)
    }

    /** `add_object`: add or replace the object under `name`. */
    method AddObject(name: string, objType: string, content: Option<string>)
      modifies this
      ensures objects == Put(old(objects), name, CacheObject(objType, content))
      ensures metadata == old(metadata)
      ensures GetObject(name) == Some(CacheObject(objType, content))
      ensures forall n :: n != name ==> GetObject(n) == old(GetObject(n))
    {
      PutGet(objects, name, CacheObject(objType, content), name);
      forall n | n != name ensures Get(Put(objects, name, CacheObject(objType, content)), n) == Get(objects, n) {
        PutGet(objects, name, CacheObject(objType, content), n);
      }
      objects := Store(objects, name, CacheObject(objType, content));
    }

    /** `get_object`: the object under `name`, or None. */
    function GetObject(name: string): (r: Option<CacheObject>)
      reads this
      ensures r.Some? <==> name in KeySet(objects)
      ensures r.Some? ==> (name, r.value) in objects
    {
      Get(objects, name)
    }

    /** `remove_object`: true and the object gone when it was present;
        false and nothing changed otherwise. */
    method RemoveObject(name: string) returns (removed: bool)
      modifies this
      ensures removed <==> name in KeySet(old(objects))
      ensures objects == Remove(old(objects), name)
      ensures !removed ==> objects == old(objects)
      ensures metadata == old(metadata)
      ensures GetObject(name) == None
    {
      removed := name in KeySet(objects);
      if removed {
        objects := Remove(objects, name);
      }
    }

    /** `has_object`. */
    function HasObject(name: string): (r: bool)
      reads this
      ensures r <==> GetObject(name).Some?
    {
      name in KeySet(objects)
    }

    /** `object_names`: the names, in insertion order, each once. */
    function ObjectNames(): (r: seq<string>)
      reads this
      ensures |r| == |objects|
      ensures forall i :: 0 <= i < |r| ==> r[i] == objects[i].0
      ensures forall n :: n in r <==> HasObject(n)
    {
      KeysKeySet(objects);
      Keys(objects)
    }

    /** `to_storage`: reading the result back gives this entry. */
    function ToStorage(): (r: (Dict<Record>, Metadata))
      reads this
      ensures EntryFromStorage(Some(r.0), Some(r.1)) == Success(Data())
    {
      StorageRoundTrip(Data());
      StorageOf(Data())
    }

    /** `to_action_result`: reading the result back gives this entry. */
    function ToActionResult(): (r: (Metadata, seq<Record>))
      reads this
      ensures EntryFromActionResult(r.0, r.1) == Success(Data())
    {
      ActionResultRoundTrip(Data());
      ActionResultOf(Data())
    }

    /** `from_storage`. */
    static method FromStorage(data: Option<Dict<Record>>, md: Option<Metadata>) returns (r: Result<CacheEntry, EntryError>)
      ensures r.Success? <==> EntryFromStorage(data, md).Success?
      ensures r.Success? ==> fresh(r.value) && r.value.Data() == EntryFromStorage(data, md).value
      ensures r.Failure? ==> r.error == EntryFromStorage(data, md).error
    {
      var entry := new CacheEntry();
      entry.metadata := if md.None? || md.value == map[] then map[] else md.value;
      if data.Some? && data.value != [] {
        var d := data.value;
        var i := 0;
        while i < |d|
          invariant 0 <= i <= |d|
          invariant fresh(entry)
          invariant entry.metadata == (if md.None? || md.value == map[] then map[] else md.value)
          invariant DecodeRecords(entry.objects, d[i..]) == DecodeRecords([], d)
        {
          match FromDict(d[i].1)
          case Failure(err) =>
            return Failure(err);
          case Success(o) =>
            assert d[i..][1..] == d[i + 1..];
            entry.objects := Store(entry.objects, d[i].0, o);
          i := i + 1;
        }
      }
      return Success(entry);
    }

    /** `from_action_result`. */
    static method FromActionResult(md: Metadata, objs: seq<Record>) returns (r: Result<CacheEntry, EntryError>)
      ensures r.Success? <==> EntryFromActionResult(md, objs).Success?
      ensures r.Success? ==> fresh(r.value) && r.value.Data() == EntryFromActionResult(md, objs).value
      ensures r.Failure? ==> r.error == EntryFromActionResult(md, objs).error
    {
      var entry := new CacheEntry.WithMetadata(md);
      var i := 0;
      while i < |objs|
        invariant 0 <= i <= |objs|
        invariant fresh(entry) && entry.metadata == md
        invariant DecodeActions(entry.objects, objs[i..]) == DecodeActions([], objs)
      {
        match ActionObjectOf(objs[i])
        case Failure(err) =>
          return Failure(err);
        case Success(p) =>
          assert objs[i..][1..] == objs[i + 1..];
          entry.objects := Store(entry.objects, p.0, p.1);
        i := i + 1;
      }
      return Success(entry);
    }
  }
}
