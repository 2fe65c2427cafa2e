# causaliq-workflow cache, export/import, matrix expansion and action registry in Dafny

This project models the core of causaliq-workflow, a workflow runner for
causal-discovery experiments:

- **Workflow cache.** Each job of a workflow is keyed by its *matrix values*:
  the variable-to-value dictionary one combination of the workflow matrix
  assigns. The key is stored as canonical JSON, with keys sorted, and hashed
  to a 16-character SHA-256 prefix. A *cache entry* holds named objects, each
  with a type and a text content, plus free-form metadata. The cache
  enforces one *matrix schema*: every stored key must use the same variable
  names.
- **Export and import.** Export writes every entry to a directory tree or a
  zip archive. Each entry gets a directory built from its matrix values,
  holding one file per object and a `_meta.json` sidecar. Import reads such a
  tree or archive back into a cache.
- **Matrix expansion.** The matrix is turned into the list of jobs: the
  Cartesian product of the value lists, with the first variable varying
  slowest.
- **Action registry.** The registry loads action classes from entry points
  and looks them up by name. It executes an action, adding the
  `action_metadata` field. It checks that a workflow's steps name known
  actions, and groups the actions by package.

Module layout:

- `Values`, `Wrappers`, `Assoc`, `Strings` and `Files` hold the vocabulary.
  - `Values`: JSON values and matrix scalars.
  - `Wrappers`: `Option` and `Result`.
  - `Assoc`: insertion-ordered dictionaries as association lists.
  - `Strings`: key sorting.
  - `Files`: POSIX path names, directory trees and zip listings.
- `CacheKey`: the canonical key and its hash.
- `Entry`: the `CacheObject` record and the `CacheEntry` class.
- `Cache`: the `WorkflowCache` class. Its table is a sequence of rows.
- `Export` and `Import`: the two halves of the file format.
- `RoundTrip` and `ReadBack`: what one half guarantees about the other.
- `Matrix`: job expansion.
- `Action` and `Registry`: the action framework and the `ActionRegistry` class.

Several effects become explicit values:

- The SHA-256 digest is a function parameter (`Sha256`) that always returns
  64 lower-case hex digits.
- The clock is the parameter `now`.
- JSON text for the sidecar is a `JsonCodec` parameter (`dumps`/`loads`). The
  round-trip theorem assumes only that `loads` inverts `dumps`.
- The file system is a `Tree`: a list of path/text pairs with distinct paths.
  A zip archive is its member list in writing order.
- Entry-point loading and action execution are parameters: an `EntryPoint`
  outcome per name, and a `Runner` function.

The headline result is `ReadBack.DirectoryRoundTrip`. Call an object
portable when its name is non-empty and has no "/", its type is `graphml`,
`json` or `dat`, it has text content, and its file name is not `_meta.json`.
Take any cache whose
rows share one schema, whose exportable entries hold only portable objects, and
whose entries are exported to directories that are apart (none at or inside
another's, none with a `..` segment). Exporting it to a
directory and importing that directory into an empty cache stores exactly the
exported entries: each is found again under its own matrix values, with the
same objects and metadata, and nothing else is stored.

## Model

| member | source | states |
|---|---|---|
| CacheKey.KeyJson | src/causaliq_workflow/cache/workflow_cache.py:172-187 | the canonical key lists the matrix variables in sorted order, each with its own value |
| CacheKey.KeyJsonSorted | src/causaliq_workflow/cache/workflow_cache.py:183 | the keys of the canonical key are strictly increasing (`sort_keys=True`) |
| CacheKey.KeyJsonContent | src/causaliq_workflow/cache/workflow_cache.py:172-187 | the canonical key holds exactly the same variable-to-value mapping as the matrix values |
| CacheKey.KeyJsonOrderIndependent | src/causaliq_workflow/cache/workflow_cache.py:172-187 | two matrix-value dictionaries with the same contents, in any insertion order, give the same canonical key |
| CacheKey.KeyJsonInjective | src/causaliq_workflow/cache/workflow_cache.py:172-187 | equal canonical keys come only from dictionaries with the same contents |
| CacheKey.KeyJsonIdempotent | src/causaliq_workflow/cache/workflow_cache.py:172-187 | canonicalising a canonical key changes nothing |
| CacheKey.ComputeHash | src/causaliq_workflow/cache/workflow_cache.py:151-170 | the hash is `HASH_LENGTH` (16) lower-case hex digits, the prefix of the SHA-256 digest of the canonical key |
| CacheKey.HashOrderIndependent | src/causaliq_workflow/cache/workflow_cache.py:151-170 | dictionaries with equal contents hash alike, whatever their insertion order |
| Strings.Sort | src/causaliq_workflow/cache/workflow_cache.py:168 | the result is sorted and as long as the input |
| Strings.SortPermutes | src/causaliq_workflow/cache/workflow_cache.py:168 | sorting is a permutation: the same multiset of keys |
| Strings.SortDistinct | src/causaliq_workflow/cache/workflow_cache.py:168 | distinct keys sort to a strictly increasing list with exactly the same members |
| Strings.StrictlySortedUnique | src/causaliq_workflow/cache/workflow_cache.py:168 | a strictly sorted list is determined by its members, so the sorted key order does not depend on insertion order |
| Strings.ReplaceChar | src/causaliq_workflow/cache/export.py:63 | replaces every occurrence of one character and keeps every other character in place |
| Strings.LowerAscii | src/causaliq_workflow/cache/import_.py:61 | keeps the length; each upper-case ASCII letter becomes its lower-case letter and every other character stays |
| Cache.Listing | src/causaliq_workflow/cache/workflow_cache.py:344-367 | one listed record per row, in table order, carrying that row's hash, matrix values and creation time |
| Cache.Find | src/causaliq_workflow/cache/workflow_cache.py:236-268 | returns the first row whose hash and canonical key both match, or none when no row matches |
| Cache.DeleteRow | src/causaliq_workflow/cache/workflow_cache.py:316-334 | reports deletion exactly when a matching row existed, and the table then shrinks by one |
| Cache.SchemaOf | src/causaliq_workflow/cache/workflow_cache.py:400-417 | there is no schema exactly when the table is empty |
| Cache.SchemaOfConsistent | src/causaliq_workflow/cache/workflow_cache.py:400-417 | the schema is read without error exactly when all rows use the same key names, and it is then those names |
| Cache.ValidateKeys | src/causaliq_workflow/cache/workflow_cache.py:438-448 | an empty cache accepts any key names; an inconsistent table reports its error; otherwise the key is accepted exactly when its names equal the schema, and a mismatch carries both sets |
| Cache.CachePut | src/causaliq_workflow/cache/workflow_cache.py:219-234 | put fails exactly when key validation fails, with that error; otherwise it returns the hash of the key |
| Cache.CacheGet | src/causaliq_workflow/cache/workflow_cache.py:236-268 | get returns "not found" exactly when no entry exists for the key |
| Cache.CacheDelete | src/causaliq_workflow/cache/workflow_cache.py:316-334 | delete reports true exactly when the entry existed |
| Cache.CachePutFromAction | src/causaliq_workflow/cache/workflow_cache.py:526-546 | a bad action result fails with the entry error; otherwise it is a put of the entry built from the action result |
| Cache.PutThenGet | src/causaliq_workflow/cache/workflow_cache.py:189-268 | after a successful put the key exists and get returns exactly the stored entry |
| Cache.PutFromActionThenGet | src/causaliq_workflow/cache/workflow_cache.py:526-546 | after a successful put from an action result, get returns the entry built from that result |
| Cache.PutLeavesOthers | src/causaliq_workflow/cache/workflow_cache.py:189-268 | a put changes neither existence nor lookups for any key with a different canonical form |
| Cache.PutLeavesAll | src/causaliq_workflow/cache/workflow_cache.py:189-234 | the same for all other keys at once |
| Cache.PutCount | src/causaliq_workflow/cache/workflow_cache.py:219-234 | a put replaces an existing entry in place, or adds exactly one row |
| Cache.PutSchemaMismatch | src/causaliq_workflow/cache/workflow_cache.py:438-448 | a key whose names differ from the stored schema is rejected with a schema-mismatch error naming both sets |
| Cache.PutKeepsSchema | src/causaliq_workflow/cache/workflow_cache.py:219-234 | after a successful put the schema is the put key's names |
| Cache.PutRowUnique | src/causaliq_workflow/cache/workflow_cache.py:219-234 | storing keeps at most one row per hash and canonical key |
| Cache.DeleteRowUnique | src/causaliq_workflow/cache/workflow_cache.py:316-334 | deleting keeps rows unique and leaves no matching row |
| Cache.DeleteRemoves | src/causaliq_workflow/cache/workflow_cache.py:316-334 | after delete the key no longer exists and get returns "not found" |
| Cache.DeleteLeavesOthers | src/causaliq_workflow/cache/workflow_cache.py:316-334 | delete leaves lookups of every other key unchanged |
| Cache.KeyOrderIrrelevant | src/causaliq_workflow/cache/workflow_cache.py:151-187 | exists and get see only the contents of the matrix values, not their insertion order |
| Cache.PutKeyOrderIrrelevant | src/causaliq_workflow/cache/workflow_cache.py:189-234 | a put is the same for any insertion order of the key |
| Cache.WorkflowCache.constructor | src/causaliq_workflow/cache/workflow_cache.py:72-80 | a new cache is not connected, keeps its path and stored rows, and is valid |
| Cache.WorkflowCache.IsMemory | src/causaliq_workflow/cache/workflow_cache.py:98-100 | true exactly for the path `:memory:`; `Open` states what it decides |
| Cache.WorkflowCache.Open | src/causaliq_workflow/cache/workflow_cache.py:102-118 | opening connects; opening twice is an error that changes nothing; an in-memory database starts empty |
| Cache.WorkflowCache.Close | src/causaliq_workflow/cache/workflow_cache.py:120-124 | closing disconnects and keeps the stored rows |
| Cache.WorkflowCache.ListEntries | src/causaliq_workflow/cache/workflow_cache.py:344-367 | when connected, lists every row's hash, matrix values and creation time in table order; fails when not connected |
| Cache.WorkflowCache.EntryCount | src/causaliq_workflow/cache/workflow_cache.py:336-342 | the number of stored rows, or not-connected |
| Cache.WorkflowCache.GetMatrixSchema | src/causaliq_workflow/cache/workflow_cache.py:381-417 | the shared key names of the stored rows, none when empty, an error when rows disagree, not-connected when closed |
| Cache.WorkflowCache.ValidateMatrixKeys | src/causaliq_workflow/cache/workflow_cache.py:419-452 | the key-validation verdict on the stored rows, or not-connected |
| Cache.WorkflowCache.Put | src/causaliq_workflow/cache/workflow_cache.py:189-234 | not connected: fails and changes nothing; rejected key: that error and no change; otherwise returns the hash and the table is the put result; validity is kept |
| Cache.WorkflowCache.Get | src/causaliq_workflow/cache/workflow_cache.py:236-268 | returns a fresh entry object holding exactly the stored entry, none when absent, and passes on the failure or not-connected |
| Cache.WorkflowCache.GetOrCreate | src/causaliq_workflow/cache/workflow_cache.py:270-292 | returns a fresh entry: the stored one, or an empty one when the key is absent |
| Cache.WorkflowCache.Exists | src/causaliq_workflow/cache/workflow_cache.py:294-314 | whether an entry is stored for the key, or not-connected |
| Cache.WorkflowCache.Delete | src/causaliq_workflow/cache/workflow_cache.py:316-334 | whether the entry existed; the table loses exactly it; validity is kept; not-connected changes nothing |
| Cache.WorkflowCache.PutFromAction | src/causaliq_workflow/cache/workflow_cache.py:526-546 | a bad action result fails before the connection is checked; otherwise as put of the built entry |
| Entry.ToDict | src/causaliq_workflow/cache/entry.py:33-39 | the record has exactly the keys `type` and `content`, and `from_dict` reads the object back |
| Entry.FromDict | src/causaliq_workflow/cache/entry.py:42-51 | succeeds exactly when both keys are present and the type is not null, and returns those fields |
| Entry.StorageOf | src/causaliq_workflow/cache/entry.py:149-158 | one record per object, under the object's name and in object order, with the metadata alongside |
| Entry.EntryFromStorage | src/causaliq_workflow/cache/entry.py:161-182 | no data and no metadata give the empty entry; the metadata is kept, or is empty when absent |
| Entry.StorageRoundTrip | src/causaliq_workflow/cache/entry.py:149-182 | `from_storage(to_storage(e))` is `e`: the same objects in the same order and the same metadata |
| Entry.ActionName | src/causaliq_workflow/cache/entry.py:211 | the object's name is its `name`, else its `type`, else `"unknown"` |
| Entry.ActionObjectOf | src/causaliq_workflow/cache/entry.py:210-215 | a record without `type` is a key error; otherwise the object takes the record's name, type and content, with content null when absent |
| Entry.EntryFromActionResult | src/causaliq_workflow/cache/entry.py:185-217 | the metadata is kept; no objects give an entry with no objects |
| Entry.DecodeActionsFails | src/causaliq_workflow/cache/entry.py:185-217 | building succeeds exactly when every object record has a `type` |
| Entry.DecodeActionsLastWins | src/causaliq_workflow/cache/entry.py:210-215 | each name ends up holding the last object record bearing that name |
| Entry.LastNamed | src/causaliq_workflow/cache/entry.py:210-215 | the last object record bearing a name is one of the records, decoding to that name |
| Entry.ActionRecord | src/causaliq_workflow/cache/entry.py:219-229 | the record has exactly `type`, `name` and `content` and decodes back to the same name and object |
| Entry.ActionResultOf | src/causaliq_workflow/cache/entry.py:219-229 | the metadata, and one record per object that decodes back to that object |
| Entry.ActionResultRoundTrip | src/causaliq_workflow/cache/entry.py:185-229 | `from_action_result(to_action_result(e))` is `e` |
| Entry.CacheEntry.constructor | src/causaliq_workflow/cache/entry.py:83-84 | a new entry has no objects and empty metadata |
| Entry.CacheEntry.WithMetadata | src/causaliq_workflow/cache/entry.py:83-84 | a new entry has the given metadata and no objects |
| Entry.CacheEntry.AddObject | src/causaliq_workflow/cache/entry.py:86-103 | the name now holds the new object, in place when it existed or appended otherwise; other names and the metadata are unchanged |
| Entry.CacheEntry.GetObject | src/causaliq_workflow/cache/entry.py:105-114 | returns the object stored under the name, or none exactly when the name is absent |
| Entry.CacheEntry.RemoveObject | src/causaliq_workflow/cache/entry.py:116-128 | reports whether the name was present; afterwards it is absent, the other objects keep their order, and the metadata is unchanged |
| Entry.CacheEntry.HasObject | src/causaliq_workflow/cache/entry.py:130-139 | true exactly when `get_object` finds the name |
| Entry.CacheEntry.ObjectNames | src/causaliq_workflow/cache/entry.py:141-147 | the object names in insertion order, exactly the names `has_object` accepts |
| Entry.CacheEntry.ToStorage | src/causaliq_workflow/cache/entry.py:149-158 | the storage form decodes back to this entry |
| Entry.CacheEntry.ToActionResult | src/causaliq_workflow/cache/entry.py:219-229 | the action-result form rebuilds this entry |
| Entry.CacheEntry.FromStorage | src/causaliq_workflow/cache/entry.py:161-182 | a fresh entry holding the decoded data, or the decoding error |
| Entry.CacheEntry.FromActionResult | src/causaliq_workflow/cache/entry.py:185-217 | a fresh entry holding the built data, or the key error for a record without `type` |
| Export.ExtensionFor | src/causaliq_workflow/cache/export.py:22-37 | `graphml` and `json` map to their own extensions; every other type maps to `.dat` |
| Export.ExtensionsDistinguish | src/causaliq_workflow/cache/export.py:22-37 | a file name determines its object name and extension, so two objects never share a file |
| Export.Sanitise | src/causaliq_workflow/cache/export.py:62-63 | the segment is `str(value)` with every slash and backslash replaced by `_`: no separator remains and every other character is kept |
| Export.SegmentsFor | src/causaliq_workflow/cache/export.py:59-64 | one segment per listed key present in the matrix values, none containing a separator |
| Export.SegmentsForEmpty | src/causaliq_workflow/cache/export.py:59-68 | no segments exactly when none of the listed keys is present |
| Export.AbsentKeyIgnored | src/causaliq_workflow/cache/export.py:59-64 | a listed key that the matrix values lack contributes nothing |
| Export.SegmentsAgree | src/causaliq_workflow/cache/export.py:59-64 | the segments depend only on the contents of the matrix values |
| Export.SegmentsAllPresent | src/causaliq_workflow/cache/export.py:59-64 | when every listed key is present, segment i is the sanitised value of key i |
| Export.DefaultOrderIsSorted | src/causaliq_workflow/cache/export.py:56-65 | without explicit keys, the segments walk the variables in sorted order, one sanitised value per variable |
| Export.EntryPath | src/causaliq_workflow/cache/export.py:40-68 | `default` when no key yields a segment; no segment of the path contains a separator, and none is "" or "." |
| Export.EntryPathSegments | src/causaliq_workflow/cache/export.py:59-67 | when some key yields a segment, the path holds exactly the segments other than "" and "." (which `Path` drops), and is the segment list itself when there are none of those |
| Export.EntryPathByContents | src/causaliq_workflow/cache/export.py:40-68 | the entry path depends only on the contents of the matrix values, not on their order |
| Export.BuildEntryPath | src/causaliq_workflow/cache/export.py:40-68 | the loop over the keys collects the segments, and the path they make is `EntryPath` |
| Export.ObjectWrites | src/causaliq_workflow/cache/export.py:71-112 | one file per object in object order, named name plus extension, carrying the object's content |
| Export.EntryWrites | src/causaliq_workflow/cache/export.py:71-146 | the object files followed by the `_meta.json` sidecar |
| Export.EntryWritesDistinct | src/causaliq_workflow/cache/export.py:71-112 | when no object file is itself called `_meta.json`, an entry's files have distinct paths |
| Export.WriteTo | src/causaliq_workflow/cache/export.py:71-146 | a directory write stores the text at its path; a zip write appends a member named by the joined path |
| Export.WriteFilesStops | src/causaliq_workflow/cache/export.py:71-112 | once a write fails, later files change nothing |
| Export.WriteFilesDir | src/causaliq_workflow/cache/export.py:71-112 | writing text files to fresh, distinct paths succeeds and adds exactly those files, in order |
| Export.WriteFilesZip | src/causaliq_workflow/cache/export.py:115-146 | writing text files to an archive succeeds and appends one member per file, in order |
| Export.WriteFilesKind | src/causaliq_workflow/cache/export.py:71-146 | writing never turns a directory into an archive or the reverse |
| Export.WriteEntryToDir | src/causaliq_workflow/cache/export.py:71-112 | the loop writes exactly the entry's files to the directory, stopping at an object with no text |
| Export.WriteToDir | src/causaliq_workflow/cache/export.py:71-112 | the loop writes the given files to the directory, stopping at the first failure |
| Export.WriteEntryToZip | src/causaliq_workflow/cache/export.py:115-146 | the loop writes exactly the entry's files to the archive |
| Export.WriteToZip | src/causaliq_workflow/cache/export.py:115-146 | the loop appends the given files to the archive |
| Export.EntryExported | src/causaliq_workflow/cache/export.py:71-146 | an entry with text objects is written in full: its objects' files, then the sidecar holding its matrix values, creation time and metadata |
| Export.SingleEntry | src/causaliq_workflow/cache/export.py:209-250 | an entry that is missing or has no objects is skipped and changes nothing; a lookup failure is passed on; otherwise it counts exactly when its files are written |
| Export.ExportSingleEntry | src/causaliq_workflow/cache/export.py:209-250 | computes `SingleEntry` on the connected cache |
| Export.ExportFrom | src/causaliq_workflow/cache/export.py:149-206 | the output stays a directory or an archive, as it started |
| Export.ExportFromStops | src/causaliq_workflow/cache/export.py:149-206 | the first failure ends the export |
| Export.ExportAll | src/causaliq_workflow/cache/export.py:149-206 | a closed cache fails and writes nothing; otherwise a path whose name, as `Path` reads it, ends in `.zip` (any case, a trailing "/" or "/." ignored) gives an archive and any other path a directory |
| Export.IsZipPath | src/causaliq_workflow/cache/export.py:172-173 | an archive path's file name, as `Path` reads it, has a four-character suffix; `Export.ZipSuffixDecides` states what the test decides |
| Export.ZipPathTrailing | src/causaliq_workflow/cache/export.py:172-173 | a trailing "/" or "/." on the output path does not change whether it is an archive |
| Export.ZipSuffixDecides | src/causaliq_workflow/cache/export.py:172-173 | only the file name's last extension decides, in any letter case, in any directory |
| Export.ExportEntries | src/causaliq_workflow/cache/export.py:149-206 | computes `ExportAll` |
| Export.ExportListed | src/causaliq_workflow/cache/export.py:149-206 | the loop over the listed entries computes `ExportFrom` |
| Export.ExportableCount | src/causaliq_workflow/cache/export.py:149-206 | at most one per listed entry; `Export.ExportCount` states the exact count |
| Export.ExportCount | src/causaliq_workflow/cache/export.py:149-206 | an export without failure counts exactly the listed entries that are found and have objects |
| Export.SerialisedKeys | src/causaliq_workflow/cache/export.py:284-311 | the file names are exactly those of the objects having both a type and a content |
| Export.SerialisedLastWins | src/causaliq_workflow/cache/export.py:284-311 | a file name holds the content of the last object that produces it |
| Export.SerialiseObjects | src/causaliq_workflow/cache/export.py:284-311 | the loop computes `Serialised` |
| Export.StoreActionResult | src/causaliq_workflow/cache/export.py:254-281 | no cache: nothing is stored and the result is none; with an open cache, the result and the new table are those of `put_from_action` under the matrix values; with a closed cache, the table is unchanged and the result is a failure, `NotConnected` when the objects decode; validity and the connection are kept |
| Files.LastIndexOf | src/causaliq_workflow/cache/import_.py:156 | the position of the last occurrence of the character, or none when it does not occur |
| Files.BaseNamePiece | src/causaliq_workflow/cache/import_.py:183 | `PurePosixPath(s).name` is one piece without "/", never "."; a string without "/" other than "." is its own name |
| Files.ParentShort | src/causaliq_workflow/cache/import_.py:156 | a name without "/" lies in "."; a root ("/" or "//") is its own parent |
| Files.SplitNoSlash | src/causaliq_workflow/cache/import_.py:156 | no piece of `s.split("/")` contains "/" |
| Files.SplitSnoc | src/causaliq_workflow/cache/import_.py:156 | splitting `dir/f` gives the pieces of `dir` followed by `f` |
| Files.SplitHead | src/causaliq_workflow/cache/import_.py:156 | the empty string and an absolute path split into an empty first piece, which `PurePosixPath` drops |
| Files.JoinSplit | src/causaliq_workflow/cache/export.py:136-145 | joining the pieces of a split with "/" gives the string back |
| Files.SplitJoin | src/causaliq_workflow/cache/export.py:136-145 | splitting a join of pieces without "/" gives the pieces back |
| Files.NormalSnoc | src/causaliq_workflow/cache/export.py:66-67 | one more segment is kept by `Path` unless it is "" or "." |
| Files.TrailingSeparator | src/causaliq_workflow/cache/export.py:172-173 | a trailing "/" or "/." does not change the name `PurePosixPath` reads |
| Files.Stem | src/causaliq_workflow/cache/import_.py:187 | the stem is a prefix of the name, the whole name when there is no suffix |
| Files.Suffix | src/causaliq_workflow/cache/import_.py:188 | the suffix is empty or a dot followed by at least one character |
| Files.StemSuffix | src/causaliq_workflow/cache/import_.py:187-188 | stem followed by suffix rebuilds the file name |
| Files.SplitExtension | src/causaliq_workflow/cache/import_.py:111-112 | a name followed by a dotted extension splits back into that name and that extension |
| Files.IgnoredPieces | src/causaliq_workflow/cache/import_.py:156-168 | in a relative path, "dir//f" and "dir/./f" have the pieces, the parent and the name of "dir/f", so zip members are grouped as `PurePosixPath` groups them |
| Files.SkippedPiece | src/causaliq_workflow/cache/import_.py:156-168 | an empty or "." piece between a directory and a name leaves the pieces `PurePosixPath` keeps unchanged |
| Files.SameParts | src/causaliq_workflow/cache/import_.py:156-183 | two paths with the same anchor and the same kept pieces have the same parent and the same name |
| Files.SplitLastSlash | src/causaliq_workflow/cache/import_.py:156-183 | for a piece `f` other than "" and ".", the name of `dir/f` is `f`, and its parent is `dir` when `dir` is normalised (no empty or "." piece) |
| Files.JoinLast | src/causaliq_workflow/cache/export.py:138-146 | joining a path and a file gives a member whose base name is the file and whose parent is the joined path |
| Files.JoinInjective | src/causaliq_workflow/cache/export.py:138-146 | distinct paths of plain segments give distinct member names |
| Files.NormalKeeps | src/causaliq_workflow/cache/export.py:66-67 | `Path(*segments)` keeps exactly the segments other than "" and ".", and changes nothing when there are none of those |
| Files.Join | src/causaliq_workflow/cache/export.py:136-145 | the segments with one "/" between each two |
| Files.JoinBaseName | src/causaliq_workflow/cache/export.py:136-145 | the name of a joined path is its last segment |
| Files.ZipRead | src/causaliq_workflow/cache/import_.py:174 | reading finds a member exactly when the archive has a member of that name, and returns its text |
| Import.Inverted | src/causaliq_workflow/cache/import_.py:21-22 | the reverse table swaps each pair of the extension table |
| Import.TypeFor | src/causaliq_workflow/cache/import_.py:25-34 | `.graphml` and `.json` map back to their types; every other extension maps to `dat` |
| Import.TypeExtensionInverse | src/causaliq_workflow/cache/import_.py:22-34 | type-to-extension and back returns the type exactly for `graphml`, `json` and `dat`; any other type comes back as `dat` |
| Import.FileObjects | src/causaliq_workflow/cache/import_.py:111-116 | each file becomes an object named by its stem, typed by its suffix, holding its text |
| Import.GroupObjectsKeys | src/causaliq_workflow/cache/import_.py:105-116 | the entry's objects are named exactly by the stems of the files read |
| Import.GroupObjectsDistinct | src/causaliq_workflow/cache/import_.py:105-116 | with distinct stems, the objects are the files' objects in reading order |
| Import.GroupObjectsLastWins | src/causaliq_workflow/cache/import_.py:116 | when stems collide, the last file read wins |
| Import.ImportGroup | src/causaliq_workflow/cache/import_.py:97-121 | a sidecar that is not JSON is an error that changes nothing; an entry with no objects is skipped; otherwise a closed cache fails, and an open one is `put` under the sidecar's matrix values and metadata (each `{}` when absent) with the directory's objects, storing it or passing on the put's failure |
| Import.Importer | src/causaliq_workflow/cache/import_.py:94-121 | the import step for one fixed cache, codec and clock |
| Import.ImportGroups | src/causaliq_workflow/cache/import_.py:94-123 | the count never exceeds the number of entry directories |
| Import.ImportGroupsStops | src/causaliq_workflow/cache/import_.py:94-123 | the first failure ends the import |
| Import.ImportCount | src/causaliq_workflow/cache/import_.py:118-121 | an import without failure counts exactly the directories that yield objects |
| Import.ImportClosedStoresNothing | src/causaliq_workflow/cache/import_.py:118-121 | importing into a closed cache stores nothing and counts nothing |
| Import.DirFiles | src/causaliq_workflow/cache/import_.py:105-109 | reads at most one file per tree entry; `Import.DirFilesExact` states which files |
| Import.DirFilesExact | src/causaliq_workflow/cache/import_.py:105-116 | the files read are exactly the plain files directly inside the directory, with their texts |
| Import.DirGroups | src/causaliq_workflow/cache/import_.py:94 | at most one entry directory per file; `Import.DirGroupsSidecars` states which directories |
| Import.MetaFileName | src/causaliq_workflow/cache/import_.py:94 | `IsMetaFile` holds exactly when the file's name is `_meta.json`, as `rglob("_meta.json")` matches |
| Import.DirGroupsSidecars | src/causaliq_workflow/cache/import_.py:94-95 | there is one entry directory for each `_meta.json` file, and no other |
| Import.ImportDir | src/causaliq_workflow/cache/import_.py:69-123 | a missing input directory is a not-found error that changes nothing |
| Import.AddFile | src/causaliq_workflow/cache/import_.py:116 | stores the file's object under its stem and leaves the metadata alone |
| Import.EntryFromDir | src/causaliq_workflow/cache/import_.py:103-116 | a fresh entry with the sidecar metadata and the objects read from the directory |
| Import.PutGroup | src/causaliq_workflow/cache/import_.py:118-121 | stores a non-empty entry and reports it, as `ImportGroup` does |
| Import.ImportOneDir | src/causaliq_workflow/cache/import_.py:94-121 | one entry directory of the tree imported, as `ImportGroup` |
| Import.ImportFromDir | src/causaliq_workflow/cache/import_.py:69-123 | the method computes `ImportDir` and keeps the cache valid |
| Import.ImportSidecars | src/causaliq_workflow/cache/import_.py:94-121 | the loop imports the entry directories in tree order, stopping at the first failure |
| Import.ImportSidecarAt | src/causaliq_workflow/cache/import_.py:94-121 | one turn of that loop |
| Import.GroupedNamesIn | src/causaliq_workflow/cache/import_.py:152-159 | a directory's list holds exactly its members, in archive order |
| Import.NamesInSound | src/causaliq_workflow/cache/import_.py:152-159 | every name listed under a directory is a non-directory member whose `PurePosixPath` parent is that directory |
| Import.NamesInComplete | src/causaliq_workflow/cache/import_.py:152-159 | every non-directory member whose `PurePosixPath` parent is a directory is listed under it |
| Import.NamesInExact | src/causaliq_workflow/cache/import_.py:152-159 | a name is listed under a directory exactly when it is a non-directory member whose parent, as `PurePosixPath` reads it ("//" and "." pieces dropped), is that directory |
| Import.GroupMembers | src/causaliq_workflow/cache/import_.py:152-159 | the loop computes `Grouped` |
| Import.ZipDirFiles | src/causaliq_workflow/cache/import_.py:182-194 | reads at most one file per listed member; `Import.ZipDirFilesExact` states which files |
| Import.ZipDirFilesExact | src/causaliq_workflow/cache/import_.py:182-194 | the files read are the listed members other than `_meta.json`, each with its text |
| Import.EntryFromZip | src/causaliq_workflow/cache/import_.py:179-194 | a fresh entry with the sidecar metadata and the objects read from the directory's members |
| Import.AddMember | src/causaliq_workflow/cache/import_.py:182-194 | one turn of that loop |
| Import.Marks | src/causaliq_workflow/cache/import_.py:164-168 | each member is marked with its directory when it names a sidecar |
| Import.FirstPerDirFound | src/causaliq_workflow/cache/import_.py:164-171 | every sidecar taken is a marked member of the archive |
| Import.FirstPerDirOnce | src/causaliq_workflow/cache/import_.py:169-171 | at most one sidecar is taken per directory, and the processed set is exactly the taken directories |
| Import.FirstPerDirCovers | src/causaliq_workflow/cache/import_.py:169-171 | every directory holding a sidecar gets processed |
| Import.FirstPerDirPrefix | src/causaliq_workflow/cache/import_.py:164-171 | scanning more members only appends to what was taken |
| Import.ZipScanSidecars | src/causaliq_workflow/cache/import_.py:164-171 | each taken member names a sidecar of its directory, directories are taken once, and every sidecar's directory is processed |
| Import.SidecarSuffixMisread | src/causaliq_workflow/cache/import_.py:165 | with the suffix test as written, in a normalised directory, an object file named `<stem>_meta.json` written before the real sidecar is taken as that directory's sidecar |
| Import.SidecarExactName | src/causaliq_workflow/cache/import_.py:165 | with an exact-name test, the same archive (in a normalised directory) yields the real `_meta.json` |
| Import.ImportZip | src/causaliq_workflow/cache/import_.py:126-201 | a missing archive is a not-found error that changes nothing; otherwise the entry directories the chosen sidecar test finds (the source's `endswith` test when `asWritten`) are imported in turn |
| Import.ImportOneZip | src/causaliq_workflow/cache/import_.py:168-199 | one entry directory of the archive imported, as `ImportGroup` |
| Import.ZipMemberSkipped | src/causaliq_workflow/cache/import_.py:164-170 | a member the sidecar test rejects (`endswith("_meta.json")` as written), or whose directory was processed, changes nothing |
| Import.ZipMemberTaken | src/causaliq_workflow/cache/import_.py:164-171 | a member the sidecar test accepts, in a new directory, processes that directory and adds its entry |
| Import.ImportZipMemberAt | src/causaliq_workflow/cache/import_.py:164-199 | one turn of the archive scan, with the source's `endswith` test when `asWritten` |
| Import.ImportZipMembers | src/causaliq_workflow/cache/import_.py:164-199 | the loop imports the archive's entry directories in member order, stopping at the first failure; each member is checked with the source's `endswith` test when `asWritten` |
| Import.ImportFromZip | src/causaliq_workflow/cache/import_.py:126-201 | the method computes `ImportZip` for the same sidecar test (the source's when `asWritten`) and keeps the cache valid |
| Import.ImportAll | src/causaliq_workflow/cache/import_.py:37-66 | a path whose name, as `Path` reads it, ends in `.zip` reads an archive (with the source's sidecar test when `asWritten`) and any other path a directory; a missing input is not-found; a closed cache stores nothing |
| Import.ImportEntries | src/causaliq_workflow/cache/import_.py:37-66 | the method computes `ImportAll` for the same sidecar test (the source's when `asWritten`) and keeps the cache valid |
| Matrix.Lists | src/causaliq_pipeline/workflow.py:79-80 | the value lists of the variables, in matrix order |
| Matrix.Zip | src/causaliq_pipeline/workflow.py:88 | pairs variable i with value i, up to the shorter of the two |
| Matrix.ZipAll | src/causaliq_pipeline/workflow.py:86-89 | one job per combination, in order |
| Matrix.ExpandMatrix | src/causaliq_pipeline/workflow.py:57-96 | the loop computes `Expand`: the jobs of the Cartesian product |
| Matrix.ProductLength | src/causaliq_pipeline/workflow.py:83 | the product has as many combinations as the product of the list lengths |
| Matrix.ProductMember | src/causaliq_pipeline/workflow.py:83 | a combination is in the product exactly when it has one value per list, each taken from its list |
| Matrix.ProductEmptyList | src/causaliq_pipeline/workflow.py:83 | one empty value list makes the product empty |
| Matrix.ExpandLength | src/causaliq_pipeline/workflow.py:57-96 | the number of jobs is the product of the value-list lengths; an empty matrix gives one empty job |
| Matrix.ExpandEmpty | src/causaliq_pipeline/workflow.py:57-96 | there are no jobs exactly when some variable has an empty value list |
| Matrix.ExpandJobKeys | src/causaliq_pipeline/workflow.py:86-89 | every job assigns exactly the matrix variables, in matrix order, each once |
| Matrix.ExpandJobValues | src/causaliq_pipeline/workflow.py:86-89 | every job takes each variable's value from that variable's list |
| Matrix.ExpandComplete | src/causaliq_pipeline/workflow.py:83-89 | every choice of one value per variable is one of the jobs |
| Matrix.ExpandFirstSlowest | src/causaliq_pipeline/workflow.py:83 | the jobs are the first variable's values in order, each followed by all jobs of the remaining variables |
| Matrix.ExpandOrder | src/causaliq_pipeline/workflow.py:83-89 | job `a * n + b` pairs the first variable's value `a` with job `b` of the rest, where `n` is the number of jobs of the rest |
| Matrix.ExpandOnePair | src/causaliq_pipeline/workflow.py:57-96 | one variable with two values gives two one-variable jobs, in order |
| Matrix.ExpandTwoByTwo | src/causaliq_pipeline/workflow.py:57-96 | a two-by-two matrix gives its four jobs with the first variable varying slowest |
| Registry.MatrixKey | src/causaliq_workflow/registry.py:51-79 | empty exactly when there are no matrix values; otherwise the same 16-digit hash the cache computes |
| Registry.MatrixKeyOrderIndependent | src/causaliq_workflow/registry.py:51-79 | contexts whose matrix values have equal contents have the same key |
| Registry.Dedup | src/causaliq_workflow/registry.py:317-318 | no name repeats and exactly the given names remain |
| Registry.HasAction | src/causaliq_workflow/registry.py:330-340 | a name is known exactly when the loaded actions or the entry points have it |
| Registry.AvailableNames | src/causaliq_workflow/registry.py:309-319 | strictly sorted, and a name is listed exactly when `has_action` accepts it |
| Registry.ReprList | src/causaliq_workflow/registry.py:369-373 | the rendering of a list is bracketed, is `[]` exactly for the empty list, and quotes a single name as `['name']` |
| Registry.Load | src/causaliq_workflow/registry.py:167-207 | a provider class is loaded and cached under the name, changing no other name; a non-provider or a failing load records one more discovery error and caches nothing; an unknown name changes nothing |
| Registry.Lookup | src/causaliq_workflow/registry.py:342-374 | succeeds exactly when the class is loaded or loads; a loaded class is returned with no change; a failed load and an unknown name give their own messages; other names are untouched |
| Registry.LookupCaches | src/causaliq_workflow/registry.py:342-374 | a second lookup of a found name returns the same class and changes nothing |
| Registry.SplitInputs | src/causaliq_workflow/registry.py:407-408 | the action name is the `action` input, or empty; the parameters are the other inputs, unchanged |
| Registry.SplitInputsRestores | src/causaliq_workflow/registry.py:407-408 | the action name and the parameters together hold exactly the inputs |
| Registry.Execute | src/causaliq_workflow/registry.py:376-428 | executing leaves the registry as the class lookup leaves it |
| Registry.ExecuteSucceeds | src/causaliq_workflow/registry.py:376-428 | execution succeeds exactly when the lookup succeeds and the run on a fresh instance succeeds |
| Registry.ExecuteResult | src/causaliq_workflow/registry.py:404-421 | the result is the run's outputs plus `action_metadata`, holding the instance's metadata merged over its name and version |
| Registry.ExecuteFailure | src/causaliq_workflow/registry.py:425-428 | every failure is reported as the execution-failed message for that name |
| Registry.StepErrors | src/causaliq_workflow/registry.py:443-453 | at most one error per step; `Registry.StepErrorsExact` states which steps |
| Registry.StepErrorsExact | src/causaliq_workflow/registry.py:443-453 | an error is reported exactly for each step that uses an unknown action |
| Registry.StepLabel | src/causaliq_workflow/registry.py:449 | an absent step name prints `unnamed`, a null one `None`, a string itself |
| Registry.ValidationErrors | src/causaliq_workflow/registry.py:430-457 | the discovery errors come last, in order |
| Registry.ValidWhenAllKnown | src/causaliq_workflow/registry.py:430-457 | no errors exactly when discovery had no errors and every step's action is known |
| Registry.PackageOf | src/causaliq_workflow/registry.py:470-474 | the package is the first dot-separated part of the class's module |
| Registry.FirstSegment | src/causaliq_workflow/registry.py:470-472 | the longest dot-free prefix of the module name |
| Registry.Grouped | src/causaliq_workflow/registry.py:459-481 | every listed package has at least one action |
| Registry.GroupedMembers | src/causaliq_workflow/registry.py:459-481 | an action is listed under a package exactly when it comes from that package |
| Registry.OnePackageEach | src/causaliq_workflow/registry.py:459-481 | every loaded action is listed under its own package and nowhere else |
| Registry.ActionRegistry.constructor | src/causaliq_workflow/registry.py:115-126 | the registry starts with the discovered classes, entry points and errors |
| Registry.ActionRegistry.GetAvailableActions | src/causaliq_workflow/registry.py:296-307 | the loaded classes by name |
| Registry.ActionRegistry.GetDiscoveryErrors | src/causaliq_workflow/registry.py:321-328 | the discovery errors in order |
| Registry.ActionRegistry.LoadEntryPoint | src/causaliq_workflow/registry.py:167-207 | the method computes `Load` on the registry's state |
| Registry.ActionRegistry.GetActionClass | src/causaliq_workflow/registry.py:342-374 | the method computes `Lookup` on the registry's state |
| Registry.ActionRegistry.ExecuteAction | src/causaliq_workflow/registry.py:376-428 | the method computes `Execute` on the registry's state |
| Registry.ActionRegistry.ValidateWorkflowActions | src/causaliq_workflow/registry.py:430-457 | the method computes `ValidationErrors` |
| Registry.ActionRegistry.ListActionsByPackage | src/causaliq_workflow/registry.py:459-481 | the loop computes `Grouped` |
| Action.ActionInputDefaults | src/causaliq_workflow/action.py:18-25 | an input given only a name and description is optional, defaults to null and accepts any type |
| Action.New | src/causaliq_workflow/action.py:64-66 | a fresh instance has recorded no execution metadata |
| Action.Merge | src/causaliq_workflow/action.py:128 | the merged keys are both sides' keys; the right side wins where both have a key; the left side's keys keep their order, and the right side's new keys follow in its order |
| Action.BaseMetadata | src/causaliq_workflow/action.py:124-127 | the standard fields are `action_name` and `action_version`, in that order |
| Action.GetActionMetadata | src/causaliq_workflow/action.py:110-128 | always reports `action_name` and `action_version`, plus exactly the recorded keys |
| Action.ExecutionMetadataWins | src/causaliq_workflow/action.py:110-128 | a recorded value wins; an unrecorded standard field holds the class's name or version; any other key is absent |
| Action.FreshMetadata | src/causaliq_workflow/action.py:110-128 | a fresh instance reports exactly its name and version |
| Action.ValidateInputs | src/causaliq_workflow/action.py:96-108 | the default validation accepts every input |
| RoundTrip.Each | src/causaliq_workflow/cache/export.py:149-206 | applies the per-entry function to every listed entry, one result each |
| RoundTrip.Kept | src/causaliq_workflow/cache/export.py:209-250 | at most one exported item per listed entry; `RoundTrip.KeptHeld` and `RoundTrip.KeptIncludes` state which |
| RoundTrip.Exported | src/causaliq_workflow/cache/export.py:149-206 | the items an export writes: at most one per listed entry; `RoundTrip.KeptHeld` and `RoundTrip.KeptIncludes` state which |
| RoundTrip.KeptHeld | src/causaliq_workflow/cache/export.py:209-250 | every exported item is a listed entry that was found and has objects, at the path built for it |
| RoundTrip.KeptIncludes | src/causaliq_workflow/cache/export.py:209-250 | every listed entry that is found and has objects is exported, at its own path |
| RoundTrip.KeptPrefix | src/causaliq_workflow/cache/export.py:149-206 | exporting more entries only appends items |
| RoundTrip.TextsOf | src/causaliq_workflow/cache/export.py:71-112 | an item's files are its objects' files, then a sidecar holding its matrix values, creation time and metadata |
| RoundTrip.WrittenAway | src/causaliq_workflow/cache/export.py:71-112 | files are written only inside the exported entry directories |
| RoundTrip.ObjectFiles | src/causaliq_workflow/cache/export.py:71-112 | one file per object, named name plus extension and holding the object's text |
| RoundTrip.ObjectFilesRead | src/causaliq_workflow/cache/export.py:71-112 | reading an entry's object files back, as import does, gives exactly the entry's objects |
| RoundTrip.FreshFiles | src/causaliq_workflow/cache/export.py:71-112 | a new entry directory's files are not already in the tree |
| RoundTrip.SingleEntryWrites | src/causaliq_workflow/cache/export.py:209-250 | a found, portable entry with objects is exported into a fresh directory, adding exactly its files |
| RoundTrip.ExportStep | src/causaliq_workflow/cache/export.py:149-206 | exporting one more such entry adds its files to what was written |
| RoundTrip.ExportWritesKept | src/causaliq_workflow/cache/export.py:149-206 | the last entry, found with objects in a directory apart from the others, is kept after them, and its export adds exactly its files to theirs |
| RoundTrip.ExportWritesAll | src/causaliq_workflow/cache/export.py:149-206 | with readable, portable entries in directories that are apart, the export succeeds, counts the exported items and writes exactly their files |
| ReadBack.TextsFiles | src/causaliq_workflow/cache/import_.py:105-116 | reading a directory from one item's files gives that item's object files, or nothing for another directory |
| ReadBack.WrittenFiles | src/causaliq_workflow/cache/import_.py:105-116 | from the export of items with distinct paths, an item's directory reads back its object files |
| ReadBack.TextsGroups | src/causaliq_workflow/cache/import_.py:94-95 | one item's files hold exactly one sidecar |
| ReadBack.WrittenGroups | src/causaliq_workflow/cache/import_.py:94-95 | the exported tree has one entry directory per item, in export order |
| ReadBack.GroupsStored | src/causaliq_workflow/cache/import_.py:94-116 | each entry directory of the exported tree reads back its item's objects |
| ReadBack.ImportOne | src/causaliq_workflow/cache/import_.py:97-121 | importing an exported item stores its entry under its matrix values |
| ReadBack.LookupsAfterPut | src/causaliq_workflow/cache/workflow_cache.py:189-268 | after storing a new key, the earlier keys are found as before and the new key finds its entry |
| ReadBack.UnlistedAfter | src/causaliq_workflow/cache/workflow_cache.py:189-234 | a put of one listed key creates no entry for any key that is not listed |
| ReadBack.ReputSchema | src/causaliq_workflow/cache/workflow_cache.py:419-452 | re-storing items that share key names leaves that schema |
| ReadBack.ReputStep | src/causaliq_workflow/cache/workflow_cache.py:189-234 | re-storing is one put per item, in order, each succeeding |
| ReadBack.ReputFinds | src/causaliq_workflow/cache/workflow_cache.py:189-268 | after re-storing, every item is found with its own entry |
| ReadBack.ReputOnly | src/causaliq_workflow/cache/workflow_cache.py:189-314 | after re-storing, no other key exists, and there is one row per item |
| ReadBack.ImportStoresAll | src/causaliq_workflow/cache/import_.py:94-123 | importing the exported groups stores every item in order and counts them all |
| ReadBack.ReadBackAll | src/causaliq_workflow/cache/import_.py:69-123 | importing the exported tree into an empty cache succeeds, counts every item, finds each item's entry and stores nothing else |
| ReadBack.KeptApart | src/causaliq_workflow/cache/export.py:209-250 | entries exported to directories that are apart give items with distinct paths |
| ReadBack.KeysFromPaths | src/causaliq_workflow/cache/export.py:40-68 | items with distinct paths built from their matrix values have distinct keys |
| ReadBack.KeptPlaced | src/causaliq_workflow/cache/export.py:209-250 | each exported item sits at the path built from its matrix values |
| ReadBack.KeptFound | src/causaliq_workflow/cache/export.py:228-233 | each exported item is the entry `get` returns for its matrix values |
| ReadBack.ExportedFit | src/causaliq_workflow/cache/workflow_cache.py:400-417 | the exported items of a cache with one schema share those key names and are apart |
| ReadBack.DirectoryRoundTrip | src/causaliq_workflow/cache/workflow_cache.py:454-524 | exporting a consistent cache to a directory and importing that directory into an empty cache stores exactly the exported entries, each found as in the original cache |

## Left out

- Discovery of actions is not modelled: entry-point enumeration, module scanning and `register_action`. The registry starts from a given state of loaded classes, entry points and discovery errors.
- Entry-point loading becomes an `EntryPoint` outcome per name: a provider class, a non-provider, or an exception message. Importing code and `inspect` checks are left out.
- Action execution is the `Runner` parameter. A failure while instantiating the class, or an exception in `get_action_metadata`, is folded into the runner's failure.
- The distinction between `BaseActionProvider` and `CausalIQAction` is not modelled. Both are the same `ActionClass` record, with the class attributes and `__module__`.
- Registry.ActionRegistry.GetAvailableActions: promises equal contents (`ToMap`), not a distinct copy; values have no identity here.
- Registry.PackageOf: the `"unknown"` branch of `list_actions_by_package` is absent. `str.split` always returns at least one part, so that branch cannot run.
- Registry.ReprList: renders the list of available names in the error message with quotes around each name but without Python's escaping of quotes inside names.
- Matrix.ExpandMatrix: the `WorkflowExecutionError` path is absent. With value lists of scalars, `itertools.product` and `zip` cannot raise.
- Matrix values are scalars: string, integer, boolean or null. Nested lists and dictionaries as matrix values are not modelled, and neither is floating point.
- SHA-256 is the parameter `sha`, assumed to return 64 lower-case hex digits. JSON text is not modelled: the canonical key is the key-sorted pair list that `json.dumps(..., sort_keys=True)` would print, and the sidecar goes through the `JsonCodec` parameter.
- The clock is the parameter `now`. The SQLite-backed `TokenCache` is a sequence of rows with a connection flag. `token_cache`, `token_count`, `set_compressor`, compression and `__enter__`/`__exit__` are not modelled.
- File-system errors are not modelled: permissions, a full disk, a path component that is a file, and encodings. Writing an object whose content is null is the `NotText` export error.
- A `Tree` records files only. Directories, and `mkdir`, have no counterpart. A file already at an exported path is replaced, as `write_text` replaces it.
- Import.DirGroups and Import.DirFiles: the order of a `Tree`'s files stands in for the order `rglob` and `iterdir` yield, which depends on the file system. The order decides which entry directory is imported first and, within a directory, which file wins when two share a stem.
- Export.EntryPath: a `..` segment (a matrix value that is exactly `..`) is kept as a directory name. The file system resolves it to the parent directory, outside the output directory, and a `Tree` does not. ReadBack.DirectoryRoundTrip excludes such paths.
- Export.BuildEntryPath: the same `..` gap as Export.EntryPath.
- Export.WriteTo: a file name is one path segment. An object name containing "/" is not split into sub-directories as `Path` splits it, and a name starting with "/" does not replace the entry directory. For names without "/", the zip member name `Files.Join` gives equals `str(entry_path / name)`.
- Export.WriteEntryToDir: the same object-name gap as Export.WriteTo. A directory whose path is already a file, or a file whose path is already a directory, is not detected; `mkdir` or `write_text` raise there.
- Export.WriteEntryToZip: the same object-name gap as Export.WriteTo.
- Entry.FromDict: a null `type` fails with `NotAString`, because `CacheObject.objType` is a string here. `from_dict` stores the None.
- Entry.ActionObjectOf: a null `type`, or a null `name`, fails with `NotAString`. `from_action_result` stores the object with a None type, or under the key None.
- Entry.DecodeActionsFails: the same null `name` and `type` gap as Entry.ActionObjectOf.
- Entry.CacheEntry.FromActionResult: the same null `name` and `type` gap as Entry.ActionObjectOf.
- `CacheObject.content` is `Any` in the source and an optional string here. Non-string contents, such as numbers or nested structures, are not modelled.
- ReadBack.DirectoryRoundTrip: proved for directory exports only. The zip variant's export and import are modelled and specified step by step, but their round trip is not proved.
- ReadBack.DirectoryRoundTrip assumes the following:
  - the export goes to an empty output directory;
  - every object of an exported entry is portable (`RoundTrip.Portable`):
    - it has text content and a file name other than `_meta.json`;
    - its type is `graphml`, `json` or `dat`. Export writes any other type, such as `csv`, as `.dat`, and import reads it back as type `dat` (`Import.TypeExtensionInverse`);
    - its name is not empty. The name "" of type `json` is written as `.json`, which `Path` reads as a stem `.json` with no suffix;
    - its name has no "/", so it is one file directly inside the entry directory;
  - the directories of the entries with objects are apart: none has a `..` segment, and none lies at or inside another's. This also excludes nested entry directories, which Python handles when no file and directory share a path;
  - every listed entry can be read back;
  - the rows share one schema;
  - the codec's `loads` inverts `dumps`.

  Entries with no objects are not exported, so the theorem speaks of the exported entries only.
- Import does not model a sidecar with a wrong shape. A sidecar whose JSON is not an object, or whose `matrix_values` is not a dictionary, is not represented: `loads` returns either a sidecar document or nothing.

## Findings

| source | as written | input that shows it | evidently intended | confidence | as-written member | corrected member |
|---|---|---|---|---|---|---|
| src/causaliq_workflow/cache/import_.py:165 | the zip import takes any member whose name ends with `_meta.json` as its directory's sidecar, and only the first per directory | an entry with an object `graph_meta` of type `json`: export writes `d/graph_meta.json` before `d/_meta.json`, so import reads the object as the sidecar and skips the real one | only a member whose base name is exactly `_meta.json`, as the directory import does at line 94; `Import.ImportZip` models both tests, the source's when `asWritten` holds | not executed | Import.SidecarSuffixMisread | Import.SidecarExactName |
