/**
 * The action framework (action.py): an action class carries its name,
 * version and input/output specifications as class attributes; an instance
 * adds the execution metadata its `run` fills in, and reports that metadata
 * merged over the two standard fields `action_name` and `action_version`.
 */
module Action {
  import opened Wrappers
  import opened Assoc
  import opened Values

  /** `ActionInput`: an input specification, with the dataclass defaults. */
  datatype ActionInput = ActionInput(
    name: string,
    description: string,
    required: bool := false,
    default: Json := JNull,
    typeHint: string := "Any")

  /** A `CausalIQAction` subclass: its class attributes (with the base
      class's defaults) and the `__module__` it is defined in. */
  datatype ActionClass = ActionClass(
    moduleName: string,
    name: string := "",
    version: string := "1.0.0",
    description: string := "",
    author: string := "CausalIQ",
    inputs: Dict<ActionInput> := [],
    outputs: Dict<string> := [])

  /** An instance of an action class and its `_execution_metadata`. */
  datatype Instance = Instance(cls: ActionClass, executionMetadata: Dict<Json>)

  /** An input specification built from a name and a description alone is
      optional, has no default and accepts any type. */
  lemma ActionInputDefaults(name: string, description: string)
    ensures var i := ActionInput(name, description);
      i.name == name && i.description == description &&
      !i.required && i.default == JNull && i.typeHint == "Any"
  {
  }

  /** `__init__`: a fresh instance has recorded no execution metadata. */
  function New(cls: ActionClass): (r: Instance)
    ensures r.cls == cls && |r.executionMetadata| == 0
  {
    Instance(cls, [])
  }

  /** `{**a, **b}`: the keys of `a` in their order, then the new keys of
      `b`; a key both hold takes its value from `b`. */
  function Merge(a: Dict<Json>, b: Dict<Json>): (r: Dict<Json>)
    ensures KeySet(r) == KeySet(a) + KeySet(b)
    ensures forall k :: k in KeySet(b) ==> Get(r, k) == Get(b, k)
    ensures forall k :: k !in KeySet(b) ==> Get(r, k) == Get(a, k)
    ensures Keys(r) == Keys(a) + NewKeys(a, b)
  {
    MergeKeys(a, b);
    MergeValues(a, b);
    MergeOrder(a, b);
    FromPairs(a + b)
  }

  /** The keys of `b` that `a` lacks, in `b`'s order. */
  function NewKeys(a: Dict<Json>, b: seq<(string, Json)>): seq<string>
    decreases |b|
  {
    if |b| == 0 then []
    else
      var k := b[|b| - 1].0;
      NewKeys(a, b[..|b| - 1]) + (if k in KeySet(a) then [] else [k])
  }

  /** `a`'s keys keep their places, and `b`'s new keys follow in `b`'s
      order. */
  lemma {:induction false} MergeOrder(a: Dict<Json>, b: seq<(string, Json)>)
    requires DistinctKeys(b)
    ensures Keys(FromPairs(a + b)) == Keys(a) + NewKeys(a, b)
    decreases |b|
  {
    if |b| == 0 {
      assert a + b == a;
      FromPairsDistinct(a);
    } else {
      MergeOrder(a, b[..|b| - 1]);
      MergeOrderStep(a, b);
    }
  }

  /** One more pair of `b`: its key is appended exactly when it is new. */
  lemma MergeOrderStep(a: Dict<Json>, b: seq<(string, Json)>)
    requires DistinctKeys(b) && |b| > 0
    requires Keys(FromPairs(a + b[..|b| - 1])) == Keys(a) + NewKeys(a, b[..|b| - 1])
    ensures Keys(FromPairs(a + b)) == Keys(a) + NewKeys(a, b)
  {
    var front := b[..|b| - 1];
    var last := b[|b| - 1];
    MergeSnoc(a, b);
    LastKeyNew(a, b);
    AppendKey(FromPairs(a + front), last.0, last.1, Keys(a), NewKeys(a, front), last.0 in KeySet(a));
  }

  /** Storing a key after keys `pre + mid` appends it to `mid` exactly
      when it is new. */
  lemma AppendKey(d: seq<(string, Json)>, k: string, v: Json, pre: seq<string>, mid: seq<string>, present: bool)
    requires Keys(d) == pre + mid
    requires k in KeySet(d) <==> present
    ensures Keys(Put(d, k, v)) == pre + (mid + if present then [] else [k])
  {
    PutKeyOrder(d, k, v);
    assert pre + mid + [k] == pre + (mid + [k]);
  }

  /** Building from `a + b` is building from `a` and the rest of `b`, then
      storing `b`'s last pair. */
  lemma MergeSnoc(a: Dict<Json>, b: seq<(string, Json)>)
    requires |b| > 0
    ensures FromPairs(a + b) == Put(FromPairs(a + b[..|b| - 1]), b[|b| - 1].0, b[|b| - 1].1)
  {
    assert (a + b)[..|a + b| - 1] == a + b[..|b| - 1];
  }

  /** The last key of `b` is in the dictionary built from `a` and the rest
      of `b` exactly when `a` holds it. */
  lemma LastKeyNew(a: Dict<Json>, b: seq<(string, Json)>)
    requires DistinctKeys(b) && |b| > 0
    ensures b[|b| - 1].0 in KeySet(FromPairs(a + b[..|b| - 1])) <==> b[|b| - 1].0 in KeySet(a)
  {
    var front := b[..|b| - 1];
    var k := b[|b| - 1].0;
    FromPairsKeys(a + front);
    assert forall j :: 0 <= j < |front| ==> front[j].0 != k;
    if k in KeySet(a + front) {
      var i :| 0 <= i < |a + front| && (a + front)[i].0 == k;
      assert i < |a|;
      assert a[i] == (a + front)[i];
    }
    if k in KeySet(a) {
      var i :| 0 <= i < |a| && a[i].0 == k;
      assert (a + front)[i] == a[i];
    }
  }

  lemma MergeKeys(a: Dict<Json>, b: Dict<Json>)
    ensures KeySet(FromPairs(a + b)) == KeySet(a) + KeySet(b)
  {
    FromPairsKeys(a + b);
    var ab := a + b;
    forall k | k in KeySet(ab) ensures k in KeySet(a) + KeySet(b) {
      var i :| 0 <= i < |ab| && ab[i].0 == k;
      if i >= |a| {
        assert b[i - |a|].0 == k;
      }
    }
    forall k | k in KeySet(a) + KeySet(b) ensures k in KeySet(ab) {
      if k in KeySet(a) {
        var i :| 0 <= i < |a| && a[i].0 == k;
        assert ab[i].0 == k;
      } else {
        var j :| 0 <= j < |b| && b[j].0 == k;
        assert ab[|a| + j].0 == k;
      }
    }
  }

  /** The later pair for a key decides its value: `b`'s when `b` has the
      key, `a`'s otherwise. */
  lemma MergeValues(a: Dict<Json>, b: Dict<Json>)
    ensures forall k :: k in KeySet(b) ==> Get(FromPairs(a + b), k) == Get(b, k)
    ensures forall k :: k !in KeySet(b) ==> Get(FromPairs(a + b), k) == Get(a, k)
  {
    forall k | k in KeySet(b) ensures Get(FromPairs(a + b), k) == Get(b, k) {
      MergeValueRight(a, b, k);
    }
    forall k | k !in KeySet(b) ensures Get(FromPairs(a + b), k) == Get(a, k) {
      MergeValueLeft(a, b, k);
    }
  }

  lemma MergeValueRight(a: Dict<Json>, b: Dict<Json>, k: string)
    requires k in KeySet(b)
    ensures Get(FromPairs(a + b), k) == Get(b, k)
  {
    var ab := a + b;
    var j :| 0 <= j < |b| && b[j].0 == k;
    assert ab[|a| + j] == b[j];
    forall l | |a| + j < l < |ab| ensures ab[l].0 != k {
      assert ab[l] == b[l - |a|];
    }
    FromPairsLastWins(ab, |a| + j);
  }

  lemma MergeValueLeft(a: Dict<Json>, b: Dict<Json>, k: string)
    requires k !in KeySet(b)
    ensures Get(FromPairs(a + b), k) == Get(a, k)
  {
    var ab := a + b;
    if k in KeySet(a) {
      var i :| 0 <= i < |a| && a[i].0 == k;
      assert ab[i] == a[i];
      forall l | i < l < |ab| ensures ab[l].0 != k {
        if l >= |a| {
          assert ab[l] == b[l - |a|];
        } else {
          assert ab[l] == a[l];
        }
      }
      FromPairsLastWins(ab, i);
    } else {
      MergeKeys(a, b);
    }
  }

  /** The standard fields: the class's `name` and `version`. */
  function BaseMetadata(cls: ActionClass): (r: Dict<Json>)
    ensures Keys(r) == ["action_name", "action_version"]
  {
    [("action_name", JStr(cls.name)), ("action_version", JStr(cls.version))]
  }

  /** `get_action_metadata`: the execution metadata merged over the standard
      fields. */
  function GetActionMetadata(inst: Instance): (r: Dict<Json>)
    ensures "action_name" in KeySet(r) && "action_version" in KeySet(r)
    ensures KeySet(r) == {"action_name", "action_version"} + KeySet(inst.executionMetadata)
  {
    var base := BaseMetadata(inst.cls);
    assert base[0].0 == "action_name" && base[1].0 == "action_version";
    Merge(base, inst.executionMetadata)
  }

  /** What the action recorded wins over the standard fields; a standard
      field it did not record keeps the class's value. */
  lemma {:induction false} ExecutionMetadataWins(inst: Instance, k: string)
    ensures k in KeySet(inst.executionMetadata) ==>
      Get(GetActionMetadata(inst), k) == Get(inst.executionMetadata, k)
    ensures k !in KeySet(inst.executionMetadata) && k == "action_name" ==>
      Get(GetActionMetadata(inst), k) == Some(JStr(inst.cls.name))
    ensures k !in KeySet(inst.executionMetadata) && k == "action_version" ==>
      Get(GetActionMetadata(inst), k) == Some(JStr(inst.cls.version))
    ensures k !in KeySet(inst.executionMetadata) && k != "action_name" && k != "action_version" ==>
      Get(GetActionMetadata(inst), k) == None
  {
    var base := BaseMetadata(inst.cls);
    assert base[0] == ("action_name", JStr(inst.cls.name));
    assert base[1] == ("action_version", JStr(inst.cls.version));
    assert KeySet(base) == {"action_name", "action_version"};
  }

  /** A fresh instance reports exactly the two standard fields. */
  lemma {:induction false} FreshMetadata(cls: ActionClass)
    ensures GetActionMetadata(New(cls)) ==
      [("action_name", JStr(cls.name)), ("action_version", JStr(cls.version))]
  {
    var base := BaseMetadata(cls);
    assert base + [] == base;
    FromPairsDistinct(base);
  }

  /** The default `validate_inputs` accepts every input map. */
  function ValidateInputs(inst: Instance, inputs: Dict<Json>): (r: bool)
    ensures r
  {
    true
  }
}
