/**
 * Insertion-ordered dictionaries, as Python's `dict` is: a list of
 * key/value pairs. `Put` is `d[k] = v` (an existing key keeps its place, a
 * new key goes to the end), `Remove` is `del d[k]`, `Get` is `d.get(k)`.
 */
module Assoc {
  import opened Wrappers

  /** A Python `dict` with string keys. */
  type Dict<V> = d: seq<(string, V)> | DistinctKeys(d) witness []

  function Keys<K, V>(d: seq<(K, V)>): (r: seq<K>)
    ensures |r| == |d|
    ensures forall i :: 0 <= i < |d| ==> r[i] == d[i].0
  {
    if |d| == 0 then [] else [d[0].0] + Keys(d[1..])
  }

  /** No key occurs twice: every well-formed dictionary satisfies this. */
  predicate DistinctKeys<K(==, !new), V>(d: seq<(K, V)>) {
    forall i, j :: 0 <= i < j < |d| ==> d[i].0 != d[j].0
  }

  function KeySet<K, V>(d: seq<(K, V)>): set<K> {
    set i | 0 <= i < |d| :: d[i].0
  }

  function Get<K(==, !new), V>(d: seq<(K, V)>, k: K): (r: Option<V>)
    ensures r.Some? <==> k in KeySet(d)
    ensures r.Some? ==> (k, r.value) in d
    ensures DistinctKeys(d) ==> forall i :: 0 <= i < |d| && d[i].0 == k ==> r == Some(d[i].1)
  {
    if |d| == 0 then None
    else if d[0].0 == k then Some(d[0].1)
    else
      var r := Get(d[1..], k);
      assert KeySet(d) == {d[0].0} + KeySet(d[1..]) by {
        forall x | x in KeySet(d) ensures x in {d[0].0} + KeySet(d[1..]) {
          var i :| 0 <= i < |d| && d[i].0 == x;
          if i > 0 { assert d[1..][i - 1].0 == x; }
        }
      }
      r
  }

  /** Python's `d[k] = v`. */
  function Put<K(==, !new), V>(d: seq<(K, V)>, k: K, v: V): (r: seq<(K, V)>)
    ensures k !in KeySet(d) ==> r == d + [(k, v)]
    ensures |r| == if k in KeySet(d) then |d| else |d| + 1
  {
    if |d| == 0 then [(k, v)]
    else if d[0].0 == k then [(k, v)] + d[1..]
    else
      SplitKeySet(d);
      [d[0]] + Put(d[1..], k, v)
  }

  lemma {:induction false} PutKeys<K(!new), V>(d: seq<(K, V)>, k: K, v: V)
    ensures KeySet(Put(d, k, v)) == KeySet(d) + {k}
    ensures DistinctKeys(d) ==> DistinctKeys(Put(d, k, v))
  {
    var r := Put(d, k, v);
    if |d| == 0 {
      assert r[0].0 == k;
    } else {
      SplitKeySet(d);
      SplitKeySet(r);
      if d[0].0 == k {
        assert r[1..] == d[1..];
        if DistinctKeys(d) {
          forall i, j | 0 <= i < j < |r| ensures r[i].0 != r[j].0 {
            assert r[j] == d[j];
            if i > 0 { assert r[i] == d[i]; }
          }
        }
      } else {
        var rest := Put(d[1..], k, v);
        assert r[1..] == rest;
        PutKeys(d[1..], k, v);
        if DistinctKeys(d) {
          assert DistinctKeys(d[1..]);
          HeadNotInTail(d);
          forall j | 0 < j < |r| ensures r[0].0 != r[j].0 {
            assert r[j].0 == rest[j - 1].0;
            assert rest[j - 1].0 in KeySet(rest);
          }
        }
      }
    }
  }

  lemma {:induction false} PutGet<K(!new), V>(d: seq<(K, V)>, k: K, v: V, k': K)
    ensures Get(Put(d, k, v), k') == if k' == k then Some(v) else Get(d, k')
  {
    if |d| > 0 && d[0].0 != k {
      PutGet(d[1..], k, v, k');
    }
  }

  /** `d[k] = v` keeps the key order when `k` is present and appends `k`
      otherwise. */
  lemma {:induction false} PutKeyOrder<K(!new), V>(d: seq<(K, V)>, k: K, v: V)
    ensures Keys(Put(d, k, v)) == if k in KeySet(d) then Keys(d) else Keys(d) + [k]
  {
    var r := Put(d, k, v);
    if |d| > 0 && k in KeySet(d) {
      SplitKeySet(d);
      if d[0].0 != k {
        PutKeyOrder(d[1..], k, v);
        assert Keys(r) == [d[0].0] + Keys(Put(d[1..], k, v));
        assert Keys(d) == [d[0].0] + Keys(d[1..]);
      }
    }
  }

  lemma KeysKeySet<K, V>(d: seq<(K, V)>)
    ensures forall k :: k in Keys(d) <==> k in KeySet(d)
  {
    forall k ensures k in Keys(d) <==> k in KeySet(d) {
      if k in Keys(d) { var i :| 0 <= i < |d| && Keys(d)[i] == k; }
      if k in KeySet(d) { var i :| 0 <= i < |d| && d[i].0 == k; assert Keys(d)[i] == k; }
    }
  }

  /** Two dictionaries that answer every lookup alike have the same content. */
  lemma MapsAgree<K(!new), V>(a: seq<(K, V)>, b: seq<(K, V)>)
    requires KeySet(a) == KeySet(b)
    requires forall k :: k in KeySet(a) ==> Get(a, k) == Get(b, k)
    ensures ToMap(a) == ToMap(b)
  {
  }

  lemma HeadNotInTail<K(!new), V>(d: seq<(K, V)>)
    requires |d| > 0 && DistinctKeys(d)
    ensures d[0].0 !in KeySet(d[1..])
  {
    forall i | 0 <= i < |d| - 1 ensures d[1..][i].0 != d[0].0 {
      assert d[1..][i] == d[i + 1];
    }
  }

  lemma SplitKeySet<K, V>(d: seq<(K, V)>)
    requires |d| > 0
    ensures KeySet(d) == {d[0].0} + KeySet(d[1..])
  {
    forall x | x in KeySet(d) ensures x in {d[0].0} + KeySet(d[1..]) {
      var i :| 0 <= i < |d| && d[i].0 == x;
      if i > 0 { assert d[1..][i - 1].0 == x; }
    }
  }

  /** `d[k] = v` on a dictionary, which stays a dictionary. */
  function Store<V>(d: Dict<V>, k: string, v: V): (r: Dict<V>)
    ensures r == Put(d, k, v)
    ensures KeySet(r) == KeySet(d) + {k}
  {
    PutKeys(d, k, v);
    Put(d, k, v)
  }

  /** Keeping the first pair in front of fewer of the others keeps the
      keys distinct. */
  lemma RemoveKeepsDistinct<K(!new), V>(d: seq<(K, V)>, rest: seq<(K, V)>)
    requires |d| > 0 && KeySet(rest) <= KeySet(d[1..])
    requires DistinctKeys(d[1..]) ==> DistinctKeys(rest)
    ensures DistinctKeys(d) ==> DistinctKeys([d[0]] + rest)
  {
    if DistinctKeys(d) {
      HeadNotInTail(d);
      assert DistinctKeys(d[1..]);
      var r := [d[0]] + rest;
      forall i, j | 0 <= i < j < |r| ensures r[i].0 != r[j].0 {
        if i == 0 {
          assert r[j] == rest[j - 1];
          assert r[j].0 in KeySet(rest);
        } else {
          assert r[i] == rest[i - 1] && r[j] == rest[j - 1];
        }
      }
    }
  }

  /** Python's `del d[k]` (nothing happens when `k` is absent). */
  function Remove<K(==, !new), V>(d: seq<(K, V)>, k: K): (r: seq<(K, V)>)
    ensures KeySet(r) == KeySet(d) - {k}
    ensures Get(r, k) == None
    ensures forall k' :: k' != k ==> Get(r, k') == Get(d, k')
    ensures DistinctKeys(d) ==> DistinctKeys(r)
    ensures k !in KeySet(d) ==> r == d
    ensures |r| <= |d|
  {
    if |d| == 0 then []
    else
      var rest := Remove(d[1..], k);
      SplitKeySet(d);
      if d[0].0 == k then rest
      else
        var r := [d[0]] + rest;
        assert r[1..] == rest;
        SplitKeySet(r);
        RemoveKeepsDistinct(d, rest);
        r
  }

  /** The dictionary's content, forgetting its order. */
  function ToMap<K(==, !new), V>(d: seq<(K, V)>): (m: map<K, V>)
    ensures m.Keys == KeySet(d)
    ensures forall k :: k in m ==> Get(d, k) == Some(m[k])
  {
    map k | k in KeySet(d) :: Get(d, k).value
  }

  /** `d[k] = v` for each pair in turn, starting from an empty dictionary:
      a later pair with the same key replaces the value but keeps the
      place. */
  function FromPairs<V>(ps: seq<(string, V)>): (r: Dict<V>)
    decreases |ps|
  {
    if |ps| == 0 then [] else Store(FromPairs(ps[..|ps| - 1]), ps[|ps| - 1].0, ps[|ps| - 1].1)
  }

  /** The keys are exactly the pairs' keys. */
  lemma {:induction false} FromPairsKeys<V>(ps: seq<(string, V)>)
    ensures KeySet(FromPairs(ps)) == KeySet(ps)
    decreases |ps|
  {
    if |ps| > 0 {
      var front := ps[..|ps| - 1];
      FromPairsKeys(front);
      assert ps == front + [ps[|ps| - 1]];
      assert KeySet(ps) == KeySet(front) + {ps[|ps| - 1].0} by {
        forall k | k in KeySet(ps) ensures k in KeySet(front) + {ps[|ps| - 1].0} {
          var i :| 0 <= i < |ps| && ps[i].0 == k;
          if i < |ps| - 1 {
            assert front[i] == ps[i];
          }
        }
        forall k | k in KeySet(front) ensures k in KeySet(ps) {
          var i :| 0 <= i < |front| && front[i].0 == k;
          assert ps[i] == front[i];
        }
      }
    }
  }

  /** Pairs with distinct keys are kept as they are, in order. */
  lemma {:induction false} FromPairsDistinct<V>(ps: seq<(string, V)>)
    requires DistinctKeys(ps)
    ensures FromPairs(ps) == ps
    decreases |ps|
  {
    if |ps| > 0 {
      var front := ps[..|ps| - 1];
      FromPairsDistinct(front);
      assert ps[|ps| - 1].0 !in KeySet(front);
      assert ps == front + [ps[|ps| - 1]];
    }
  }

  /** A key maps to the value of the last pair that has it. */
  lemma {:induction false} FromPairsLastWins<V>(ps: seq<(string, V)>, i: nat)
    requires i < |ps|
    requires forall j :: i < j < |ps| ==> ps[j].0 != ps[i].0
    ensures Get(FromPairs(ps), ps[i].0) == Some(ps[i].1)
    decreases |ps|
  {
    var n := |ps|;
    var front := ps[..n - 1];
    var d := FromPairs(front);
    var k := ps[i].0;
    var last := ps[n - 1];
    assert FromPairs(ps) == Put(d, last.0, last.1);
    if i == n - 1 {
      PutGet(d, k, last.1, k);
    } else {
      assert front[i] == ps[i] && last.0 != k;
      assert forall j :: i < j < n - 1 ==> front[j] == ps[j];
      FromPairsLastWins(front, i);
      PutGet(d, last.0, last.1, k);
    }
  }
}
