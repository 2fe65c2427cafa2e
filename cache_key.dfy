/**
 * The two-part cache key of a job (workflow_cache.py `compute_hash` and
 * `_key_json`): the canonical form of the matrix values, which is the
 * key/value list sorted by key, exactly what `json.dumps(..., sort_keys=True)`
 * spells out; and the first 16 lowercase hex characters of its SHA-256 digest.
 * The digest is a parameter: any function returning 64 lowercase hex digits.
 */
module CacheKey {
  import opened Wrappers
  import opened Assoc
  import opened Values
  import Strings

  /** A job's matrix values, in the order the job's dict holds them. */
  type MatrixValues = Dict<Scalar>

  /** `json.dumps(key_data, sort_keys=True, separators=(",", ":"))`, as the
      list of pairs it writes out, in sorted key order. */
  type CanonicalKey = seq<(string, Scalar)>

  predicate IsLowerHex(c: char) {
    '0' <= c <= '9' || 'a' <= c <= 'f'
  }

  predicate IsHexDigest(s: string) {
    |s| == 64 && forall i :: 0 <= i < |s| ==> IsLowerHex(s[i])
  }

  /** `hashlib.sha256(key_json.encode("utf-8")).hexdigest()`, left abstract. */
  type Sha256 = f: CanonicalKey -> string | forall k :: IsHexDigest(f(k))
    witness ZeroDigest

  function ZeroDigest(k: CanonicalKey): (r: string)
    ensures IsHexDigest(r)
  {
    seq(64, i => '0')
  }

  /** `WorkflowCache.HASH_LENGTH`: 16 hex characters, 64 bits. */
  const HASH_LENGTH: nat := 16

  /** The pairs of `kd` for the listed keys, in the listed order. */
  function PairsFor(kd: MatrixValues, ks: seq<string>): (r: CanonicalKey)
    requires forall k :: k in ks ==> k in KeySet(kd)
    ensures Keys(r) == ks
    ensures forall i :: 0 <= i < |r| ==> Get(kd, r[i].0) == Some(r[i].1)
  {
    if |ks| == 0 then [] else [(ks[0], Get(kd, ks[0]).value)] + PairsFor(kd, ks[1..])
  }

  /** `_key_json`: the pairs of `key_data` in sorted key order. */
  function KeyJson(kd: MatrixValues): (r: MatrixValues)
    ensures Keys(r) == Strings.Sort(Keys(kd))
  {
    SortedKeysPresent(kd);
    var r := PairsFor(kd, Strings.Sort(Keys(kd)));
    Strings.SortDistinct(Keys(kd));
    assert DistinctKeys(r) by {
      forall i, j | 0 <= i < j < |r| ensures r[i].0 != r[j].0 {
        assert Keys(r)[i] == r[i].0 && Keys(r)[j] == r[j].0;
      }
    }
    r
  }

  lemma SortedKeysPresent(kd: MatrixValues)
    ensures forall k :: k in Strings.Sort(Keys(kd)) ==> k in KeySet(kd)
  {
    var ks := Strings.Sort(Keys(kd));
    KeysKeySet(kd);
    Strings.SortPermutes(Keys(kd));
    forall k | k in ks ensures k in KeySet(kd) {
      assert k in multiset(ks);
    }
  }

  /** The canonical key lists each key once, in strictly ascending order. */
  lemma KeyJsonSorted(kd: MatrixValues)
    ensures Strings.StrictlySorted(Keys(KeyJson(kd)))
  {
    Strings.SortDistinct(Keys(kd));
  }

  /** The canonical key holds exactly the job's matrix values. */
  lemma KeyJsonContent(kd: MatrixValues)
    ensures ToMap(KeyJson(kd)) == ToMap(kd)
  {
    var r := KeyJson(kd);
    var ks := Strings.Sort(Keys(kd));
    assert KeySet(r) == KeySet(kd) by {
      Strings.SortDistinct(Keys(kd));
      KeysKeySet(kd);
      KeysKeySet(r);
    }
    forall k | k in KeySet(r) ensures Get(r, k) == Get(kd, k) {
      var j :| 0 <= j < |r| && r[j].0 == k;
      assert Get(r, k) == Some(r[j].1);
    }
    MapsAgree(r, kd);
  }

  /** `compute_hash`: the leading HASH_LENGTH characters of the digest. */
  function ComputeHash(sha: Sha256, kd: MatrixValues): (r: string)
    ensures |r| == HASH_LENGTH
    ensures forall i :: 0 <= i < |r| ==> IsLowerHex(r[i])
    ensures r == sha(KeyJson(kd))[..HASH_LENGTH]
  {
    sha(KeyJson(kd))[..HASH_LENGTH]
  }

  /** `sort_keys=True` makes the canonical key independent of the order in
      which the dict's keys were inserted. */
  lemma {:induction false} KeyJsonOrderIndependent(a: MatrixValues, b: MatrixValues)
    requires ToMap(a) == ToMap(b)
    ensures KeyJson(a) == KeyJson(b)
  {
    assert KeySet(a) == KeySet(b);
    var ks := Strings.Sort(Keys(a));
    SortedKeysAgree(a, b);
    SortedKeysPresent(a);
    forall k | k in ks ensures Get(a, k) == Get(b, k) {
      assert k in ToMap(a);
    }
    PairsForAgree(a, b, ks);
  }

  lemma SortedKeysAgree(a: MatrixValues, b: MatrixValues)
    requires KeySet(a) == KeySet(b)
    ensures Strings.Sort(Keys(a)) == Strings.Sort(Keys(b))
  {
    Strings.SortDistinct(Keys(a));
    Strings.SortDistinct(Keys(b));
    KeysKeySet(a);
    KeysKeySet(b);
    Strings.StrictlySortedUnique(Strings.Sort(Keys(a)), Strings.Sort(Keys(b)));
  }

  lemma {:induction false} PairsForAgree(a: MatrixValues, b: MatrixValues, ks: seq<string>)
    requires forall k :: k in ks ==> k in KeySet(a) && k in KeySet(b)
    requires forall k :: k in ks ==> Get(a, k) == Get(b, k)
    ensures PairsFor(a, ks) == PairsFor(b, ks)
  {
    if |ks| > 0 {
      PairsForAgree(a, b, ks[1..]);
    }
  }

  lemma HashOrderIndependent(sha: Sha256, a: MatrixValues, b: MatrixValues)
    requires ToMap(a) == ToMap(b)
    ensures ComputeHash(sha, a) == ComputeHash(sha, b)
  {
    KeyJsonOrderIndependent(a, b);
  }

  /** Distinct matrix contents have distinct canonical keys, so a lookup
      matching both hash and canonical key never confuses two jobs. */
  lemma KeyJsonInjective(a: MatrixValues, b: MatrixValues)
    requires KeyJson(a) == KeyJson(b)
    ensures ToMap(a) == ToMap(b)
  {
    KeyJsonContent(a);
    KeyJsonContent(b);
  }

  /** Parsing a canonical key back into a dict (as `list_entries` does) and
      canonicalising again gives the same key. */
  lemma KeyJsonIdempotent(kd: MatrixValues)
    ensures KeyJson(KeyJson(kd)) == KeyJson(kd)
  {
    KeyJsonContent(KeyJson(kd));
    KeyJsonContent(kd);
    KeyJsonOrderIndependent(KeyJson(kd), kd);
  }
}
