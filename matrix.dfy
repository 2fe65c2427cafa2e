/**
 * workflow.py: `WorkflowExecutor.expand_matrix`. A matrix strategy maps each
 * variable to a list of values; it expands into one job per combination, in
 * the order `itertools.product` yields them: the first variable varies
 * slowest and the last fastest.
 */
module Matrix {
  import opened Assoc
  import opened Values

  /** A matrix strategy: each variable, in declaration order, and its list
      of values. */
  type Matrix = Dict<seq<Scalar>>

  /** One job: variable/value pairs. */
  type Job = seq<(string, Scalar)>

  /** `matrix.values()`, in declaration order. */
  function Lists(m: Matrix): (r: seq<seq<Scalar>>)
    ensures |r| == |m| && forall i :: 0 <= i < |m| ==> r[i] == m[i].1
  {
    seq(|m|, i requires 0 <= i < |m| => m[i].1)
  }

  /** The combinations that start with `v`, one per combination of the
      remaining lists. */
  function Block(v: Scalar, p: seq<seq<Scalar>>): (r: seq<seq<Scalar>>)
    ensures |r| == |p| && forall j :: 0 <= j < |p| ==> r[j] == [v] + p[j]
  {
    seq(|p|, j requires 0 <= j < |p| => [v] + p[j])
  }

  /** Each value of `l` in turn, in front of every combination of `p`. */
  function Prepend(l: seq<Scalar>, p: seq<seq<Scalar>>): seq<seq<Scalar>>
    decreases |l|
  {
    if |l| == 0 then [] else Block(l[0], p) + Prepend(l[1..], p)
  }

  /** `itertools.product(*lists)`. */
  function Product(ls: seq<seq<Scalar>>): seq<seq<Scalar>>
    decreases |ls|
  {
    if |ls| == 0 then [[]] else Prepend(ls[0], Product(ls[1..]))
  }

  /** The product of the lists' lengths. */
  function Count(ls: seq<seq<Scalar>>): nat
    decreases |ls|
  {
    if |ls| == 0 then 1 else |ls[0]| * Count(ls[1..])
  }

  /** `dict(zip(variables, combination))`: pairs up to the shorter of the
      two. */
  function Zip(vars: seq<string>, c: seq<Scalar>): (r: Job)
    ensures |r| == if |vars| < |c| then |vars| else |c|
    ensures forall i :: 0 <= i < |r| ==> r[i] == (vars[i], c[i])
  {
    if |vars| == 0 || |c| == 0 then [] else [(vars[0], c[0])] + Zip(vars[1..], c[1..])
  }

  /** One job per combination, in order. */
  function ZipAll(vars: seq<string>, combos: seq<seq<Scalar>>): (r: seq<Job>)
    ensures |r| == |combos| && forall i :: 0 <= i < |combos| ==> r[i] == Zip(vars, combos[i])
  {
    seq(|combos|, i requires 0 <= i < |combos| => Zip(vars, combos[i]))
  }

  /** `expand_matrix`: `[{}]` for an empty matrix, otherwise one job per
      combination of the value lists. */
  function Expand(m: Matrix): (r: seq<Job>)
  {
    if |m| == 0 then [[]] else ZipAll(Keys(m), Product(Lists(m)))
  }

  /** The jobs `js`, each behind each value of `l` for variable `x` in
      turn: the value of `x` changes only after all of `js`. */
  function Prefixed(x: string, l: seq<Scalar>, js: seq<Job>): (r: seq<Job>)
    decreases |l|
  {
    if |l| == 0 then [] else Behind(x, l[0], js) + Prefixed(x, l[1..], js)
  }

  /** The jobs `js`, each behind `x` set to `v`. */
  function Behind(x: string, v: Scalar, js: seq<Job>): (r: seq<Job>)
    ensures |r| == |js| && forall j :: 0 <= j < |js| ==> r[j] == [(x, v)] + js[j]
  {
    seq(|js|, j requires 0 <= j < |js| => [(x, v)] + js[j])
  }

  /** `expand_matrix`, with its loop over the combinations. */
  method ExpandMatrix(m: Matrix) returns (jobs: seq<Job>)
    ensures jobs == Expand(m)
  {
    if |m| == 0 {
      return [[]];
    }
    var variables := Keys(m);
    var combinations := Product(Lists(m));
    jobs := [];
    for i := 0 to |combinations|
      invariant jobs == Expand(m)[..i]
    {
      jobs := jobs + [Zip(variables, combinations[i])];
    }
  }

  lemma {:induction false} PrependLength(l: seq<Scalar>, p: seq<seq<Scalar>>)
    ensures |Prepend(l, p)| == |l| * |p|
    decreases |l|
  {
    if |l| > 0 {
      PrependLength(l[1..], p);
      assert |l| * |p| == |p| + (|l| - 1) * |p|;
    }
  }

  /** There are as many combinations as the product of the lengths. */
  lemma {:induction false} ProductLength(ls: seq<seq<Scalar>>)
    ensures |Product(ls)| == Count(ls)
    decreases |ls|
  {
    if |ls| > 0 {
      ProductLength(ls[1..]);
      PrependLength(ls[0], Product(ls[1..]));
    }
  }

  /** A sequence is a combination of `l` then `p` exactly when its head is in
      `l` and its tail in `p`. */
  lemma {:induction false} PrependMember(l: seq<Scalar>, p: seq<seq<Scalar>>, c: seq<Scalar>)
    ensures c in Prepend(l, p) <==> |c| > 0 && c[0] in l && c[1..] in p
    decreases |l|
  {
    if |l| > 0 {
      PrependMember(l[1..], p, c);
      var blk := Block(l[0], p);
      assert c in Prepend(l, p) <==> c in blk || c in Prepend(l[1..], p);
      if c in blk {
        var j :| 0 <= j < |p| && blk[j] == c;
        assert c[1..] == p[j];
      }
      if |c| > 0 && c[0] == l[0] && c[1..] in p {
        var j :| 0 <= j < |p| && p[j] == c[1..];
        assert blk[j] == c;
      }
      if |c| > 0 {
        assert c[0] in l <==> c[0] == l[0] || c[0] in l[1..] by {
          assert l == [l[0]] + l[1..];
        }
      }
    }
  }

  /** The combinations are exactly the sequences that take one value from
      each list, in order. */
  lemma {:induction false} ProductMember(ls: seq<seq<Scalar>>, c: seq<Scalar>)
    ensures c in Product(ls) <==> |c| == |ls| && forall i :: 0 <= i < |ls| ==> c[i] in ls[i]
    decreases |ls|
  {
    if |ls| == 0 {
      assert c in Product(ls) <==> c == [];
    } else {
      PrependMember(ls[0], Product(ls[1..]), c);
      if |c| > 0 {
        ProductMember(ls[1..], c[1..]);
        if |c| == |ls| && forall i :: 0 <= i < |ls| ==> c[i] in ls[i] {
          forall i | 0 <= i < |ls| - 1 ensures c[1..][i] in ls[1..][i] {
            assert c[1..][i] == c[i + 1];
          }
        }
        if c in Product(ls) {
          forall i | 0 <= i < |ls| ensures c[i] in ls[i] {
            if i > 0 {
              assert c[i] == c[1..][i - 1];
            }
          }
        }
      }
    }
  }

  /** An empty value list leaves no combination. */
  lemma ProductEmptyList(ls: seq<seq<Scalar>>, k: nat)
    requires k < |ls| && |ls[k]| == 0
    ensures Product(ls) == []
  {
    if |Product(ls)| > 0 {
      var c := Product(ls)[0];
      ProductMember(ls, c);
      assert false;
    }
  }

  /** A matrix without its first variable is a matrix. */
  lemma TailIsMatrix(m: Matrix)
    requires |m| > 0
    ensures DistinctKeys(m[1..])
  {
    forall i, j | 0 <= i < j < |m| - 1 ensures m[1..][i].0 != m[1..][j].0 {
      assert m[1..][i] == m[i + 1] && m[1..][j] == m[j + 1];
    }
  }

  /** The matrix without its first variable. */
  function Rest(m: Matrix): (r: Matrix)
    requires |m| > 0
    ensures r == m[1..]
  {
    TailIsMatrix(m);
    m[1..]
  }

  /** There are as many jobs as the product of the value lists' lengths: one
      for an empty matrix, none when some list is empty. */
  lemma ExpandLength(m: Matrix)
    ensures |Expand(m)| == Count(Lists(m))
  {
    if |m| > 0 {
      ProductLength(Lists(m));
    }
  }

  /** The job list is empty exactly when some variable has no values. */
  lemma ExpandEmpty(m: Matrix)
    ensures Expand(m) == [] <==> exists k :: 0 <= k < |m| && m[k].1 == []
  {
    var ls := Lists(m);
    if k :| 0 <= k < |m| && m[k].1 == [] {
      ProductEmptyList(ls, k);
    } else if |m| > 0 {
      var c := seq(|m|, i requires 0 <= i < |m| => m[i].1[0]);
      ProductMember(ls, c);
      assert c in Product(ls);
    }
  }

  /** Every combination takes one value per list. */
  lemma CombinationLength(ls: seq<seq<Scalar>>, n: nat)
    requires n < |Product(ls)|
    ensures |Product(ls)[n]| == |ls|
  {
    ProductMember(ls, Product(ls)[n]);
  }

  /** Every job has exactly the matrix's variables, in order. */
  lemma ExpandJobKeys(m: Matrix, n: nat)
    requires n < |Expand(m)|
    ensures Keys(Expand(m)[n]) == Keys(m) && DistinctKeys(Expand(m)[n])
  {
    var job := Expand(m)[n];
    if |m| > 0 {
      var ks, c := Keys(m), Product(Lists(m))[n];
      CombinationLength(Lists(m), n);
      assert job == Zip(ks, c) && |job| == |m|;
      assert forall k :: 0 <= k < |m| ==> job[k].0 == ks[k] == m[k].0;
    }
  }

  /** Every job gives each variable one of its listed values. */
  lemma ExpandJobValues(m: Matrix, n: nat)
    requires n < |Expand(m)|
    ensures |Expand(m)[n]| == |m|
    ensures forall k :: 0 <= k < |m| ==> Expand(m)[n][k].1 in m[k].1
  {
    if |m| > 0 {
      var job := Expand(m)[n];
      var c := Product(Lists(m))[n];
      assert job == Zip(Keys(m), c);
      ProductMember(Lists(m), c);
      forall k | 0 <= k < |m| ensures job[k].1 in m[k].1 {
        assert job[k].1 == c[k] && c[k] in Lists(m)[k];
      }
    }
  }

  /** Every choice of one listed value per variable is a job. */
  lemma ExpandComplete(m: Matrix, c: seq<Scalar>)
    requires |c| == |m| && forall k :: 0 <= k < |m| ==> c[k] in m[k].1
    ensures Zip(Keys(m), c) in Expand(m)
  {
    if |m| == 0 {
      assert Zip(Keys(m), c) == [];
    } else {
      var combos := Product(Lists(m));
      ProductMember(Lists(m), c);
      var n :| 0 <= n < |combos| && combos[n] == c;
      assert Expand(m)[n] == Zip(Keys(m), c);
    }
  }

  /** The jobs of `[x] + vars` over `l` then `p` are those of `vars` over
      `p`, behind each value of `l` in turn. */
  lemma {:induction false} ZipAllPrepend(x: string, vars: seq<string>, l: seq<Scalar>, p: seq<seq<Scalar>>)
    ensures ZipAll([x] + vars, Prepend(l, p)) == Prefixed(x, l, ZipAll(vars, p))
    decreases |l|
  {
    if |l| > 0 {
      ZipAllPrepend(x, vars, l[1..], p);
      var blk, tail := Block(l[0], p), Prepend(l[1..], p);
      ZipAllAppend([x] + vars, blk, tail);
      ZipAllBlock(x, vars, l[0], p);
    }
  }

  lemma ZipAllAppend(vars: seq<string>, a: seq<seq<Scalar>>, b: seq<seq<Scalar>>)
    ensures ZipAll(vars, a + b) == ZipAll(vars, a) + ZipAll(vars, b)
  {
  }

  /** The combinations that start with `v` become jobs behind `x` set to
      `v`. */
  lemma ZipAllBlock(x: string, vars: seq<string>, v: Scalar, p: seq<seq<Scalar>>)
    ensures ZipAll([x] + vars, Block(v, p)) == Behind(x, v, ZipAll(vars, p))
  {
    var blk := Block(v, p);
    assert ([x] + vars)[1..] == vars;
    forall j | 0 <= j < |p| ensures Zip([x] + vars, blk[j]) == [(x, v)] + Zip(vars, p[j]) {
      assert blk[j] == [v] + p[j] && ([v] + p[j])[1..] == p[j];
    }
  }

  /** Odometer order, first variable slowest: the jobs are those of the
      rest of the matrix behind the first variable's first value, then
      behind its second, and so on. */
  lemma ExpandFirstSlowest(m: Matrix)
    requires |m| > 0
    ensures Expand(m) == Prefixed(m[0].0, m[0].1, Expand(Rest(m)))
  {
    var rest := Rest(m);
    var ls := Lists(m);
    assert ls[1..] == Lists(rest);
    assert Keys(m) == [m[0].0] + Keys(rest);
    ZipAllPrepend(m[0].0, Keys(rest), ls[0], Product(ls[1..]));
    if |rest| == 0 {
      assert ZipAll(Keys(rest), Product(ls[1..])) == [[]];
    }
  }

  lemma MulPred(a: nat, q: nat)
    requires a > 0
    ensures a * q == q + (a - 1) * q
  {
  }

  /** Position `Slot(a, |js|, b)` holds value `a` of `x` in front of job `b`. */
  lemma {:induction false} PrefixedIndex(x: string, l: seq<Scalar>, js: seq<Job>, a: nat, b: nat)
    requires a < |l| && b < |js|
    ensures Slot(a, |js|, b) < |Prefixed(x, l, js)|
    ensures Prefixed(x, l, js)[Slot(a, |js|, b)] == [(x, l[a])] + js[b]
    decreases a
  {
    var blk, tail := Behind(x, l[0], js), Prefixed(x, l[1..], js);
    assert Prefixed(x, l, js) == blk + tail;
    if a == 0 {
      assert a * |js| + b == b;
    } else {
      var n := (a - 1) * |js| + b;
      PrefixedIndex(x, l[1..], js, a - 1, b);
      MulPred(a, |js|);
      assert a * |js| + b == |blk| + n;
      assert (blk + tail)[|blk| + n] == tail[n];
      assert l[1..][a - 1] == l[a];
    }
  }

  /** Position `b` of block `a`, for blocks of `n` jobs. */
  function Slot(a: nat, n: nat, b: nat): nat {
    a * n + b
  }

  /** Odometer order by position: job `a * |Expand(Rest(m))| + b` gives the
      first variable its value `a` and the others their values in job `b`
      of the rest. */
  lemma ExpandOrder(m: Matrix, a: nat, b: nat)
    requires |m| > 0 && a < |m[0].1| && b < |Expand(Rest(m))|
    ensures var i := Slot(a, |Expand(Rest(m))|, b);
      i < |Expand(m)| && Expand(m)[i] == [(m[0].0, m[0].1[a])] + Expand(Rest(m))[b]
  {
    var js := Expand(Rest(m));
    ExpandFirstSlowest(m);
    PrefixedIndex(m[0].0, m[0].1, js, a, b);
  }

  /** Two values in front of the jobs `js`. */
  lemma PairPrefixed(x: string, v1: Scalar, v2: Scalar, js: seq<Job>)
    ensures Prefixed(x, [v1, v2], js) == Behind(x, v1, js) + Behind(x, v2, js)
  {
    assert [v1, v2][1..] == [v2];
    assert [v2][1..] == [];
    assert Prefixed(x, [v2], js) == Behind(x, v2, js) + [];
  }

  lemma BehindOne(x: string, v: Scalar, a: Job)
    ensures Behind(x, v, [a]) == [[(x, v)] + a]
  {
  }

  lemma BehindTwo(x: string, v: Scalar, a: Job, b: Job)
    ensures Behind(x, v, [a, b]) == [[(x, v)] + a, [(x, v)] + b]
  {
  }

  /** One variable with two values: a job for each. */
  lemma ExpandOnePair(y: string, y1: Scalar, y2: Scalar)
    ensures Expand([(y, [y1, y2])]) == [[(y, y1)], [(y, y2)]]
  {
    var m: Matrix := [(y, [y1, y2])];
    ExpandFirstSlowest(m);
    assert Rest(m) == [];
    assert Expand(Rest(m)) == [[]];
    PairPrefixed(y, y1, y2, [[]]);
    BehindOne(y, y1, []);
    BehindOne(y, y2, []);
    assert [(y, y1)] + [] == [(y, y1)] && [(y, y2)] + [] == [(y, y2)];
  }

  /** Two variables with two values each: (x1, y1), (x1, y2), (x2, y1),
      (x2, y2), as in `{algorithm: [pc, ges], dataset: [asia, cancer]}`. */
  lemma ExpandTwoByTwo(x: string, y: string, x1: Scalar, x2: Scalar, y1: Scalar, y2: Scalar)
    requires x != y
    ensures Expand([(x, [x1, x2]), (y, [y1, y2])]) ==
      [[(x, x1), (y, y1)], [(x, x1), (y, y2)], [(x, x2), (y, y1)], [(x, x2), (y, y2)]]
  {
    var m: Matrix := [(x, [x1, x2]), (y, [y1, y2])];
    assert Rest(m) == [(y, [y1, y2])];
    ExpandOnePair(y, y1, y2);
    ExpandFirstSlowest(m);
    var js := [[(y, y1)], [(y, y2)]];
    PairPrefixed(x, x1, x2, js);
    BehindTwo(x, x1, js[0], js[1]);
    BehindTwo(x, x2, js[0], js[1]);
    assert Expand(Rest(m)) == js;
    assert Expand(m) == Behind(x, x1, js) + Behind(x, x2, js);
    assert [(x, x1)] + [(y, y1)] == [(x, x1), (y, y1)];
    assert [(x, x1)] + [(y, y2)] == [(x, x1), (y, y2)];
    assert [(x, x2)] + [(y, y1)] == [(x, x2), (y, y1)];
    assert [(x, x2)] + [(y, y2)] == [(x, x2), (y, y2)];
  }
}
