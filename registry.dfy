/**
 * The action registry (registry.py): the job context's cache key, and the
 * registry of action provider classes, which are either loaded already or
 * named by an entry point that is loaded, and then kept, on first use.
 * Discovery itself (scanning installed entry points and imported modules)
 * happens before the registry is built and is a constructor parameter here.
 */
module Registry {
  import opened Wrappers
  import opened Assoc
  import opened Values
  import Strings
  import CacheKey
  import Matrix
  import opened Action

  /** `WorkflowContext` without its optional cache handle. */
  datatype WorkflowContext = WorkflowContext(
    mode: string,
    matrix: Matrix.Matrix,
    matrixValues: CacheKey.MatrixValues)

  /** `matrix_key`: "" for a job without matrix values, otherwise the first
      16 hex digits of the digest of the values' sorted-key JSON, which is
      the cache's own key hash. */
  function MatrixKey(ctx: WorkflowContext, sha: CacheKey.Sha256): (r: string)
    ensures r == "" <==> |ctx.matrixValues| == 0
    ensures |ctx.matrixValues| > 0 ==> r == CacheKey.ComputeHash(sha, ctx.matrixValues)
  {
    if |ctx.matrixValues| == 0 then ""
    else sha(CacheKey.KeyJson(ctx.matrixValues))[..CacheKey.HASH_LENGTH]
  }

  /** The key depends on the job's values, not on the order they were
      given in. */
  lemma {:induction false} MatrixKeyOrderIndependent(a: WorkflowContext, b: WorkflowContext, sha: CacheKey.Sha256)
    requires ToMap(a.matrixValues) == ToMap(b.matrixValues)
    ensures MatrixKey(a, sha) == MatrixKey(b, sha)
  {
    var va, vb := a.matrixValues, b.matrixValues;
    if |va| > 0 {
      assert va[0].0 in KeySet(vb);
    }
    if |vb| > 0 {
      assert vb[0].0 in KeySet(va);
    }
    CacheKey.KeyJsonOrderIndependent(va, vb);
  }

  /** What `ep.load()` gives for an entry point: a provider class, some
      other object, or an exception with its message. */
  datatype EntryPoint = Provides(cls: ActionClass) | NotProvider | Raises(message: string)

  /** The registry's three fields, as one value. */
  datatype State = State(
    actions: Dict<ActionClass>,
    entryPoints: Dict<EntryPoint>,
    discoveryErrors: seq<string>)

  /** `has_action`: loaded, or loadable from an entry point. */
  predicate HasAction(s: State, name: string)
    ensures HasAction(s, name) <==> Get(s.actions, name).Some? || Get(s.entryPoints, name).Some?
  {
    name in KeySet(s.actions) || name in KeySet(s.entryPoints)
  }

  /** The entries of `xs` without repeats, in first-occurrence order. */
  function Dedup(xs: seq<string>): (r: seq<string>)
    ensures Strings.Distinct(r)
    ensures forall x :: x in r <==> x in xs
    decreases |xs|
  {
    if |xs| == 0 then []
    else
      var r := Dedup(xs[..|xs| - 1]);
      assert xs == xs[..|xs| - 1] + [xs[|xs| - 1]];
      if xs[|xs| - 1] in r then r else r + [xs[|xs| - 1]]
  }

  /** `get_available_action_names`: the sorted union of loaded and
      entry-point names. */
  function AvailableNames(s: State): (r: seq<string>)
    ensures Strings.StrictlySorted(r)
    ensures forall n :: n in r <==> HasAction(s, n)
  {
    var u := Dedup(Keys(s.actions) + Keys(s.entryPoints));
    Strings.SortDistinct(u);
    KeysKeySet(s.actions);
    KeysKeySet(s.entryPoints);
    Strings.Sort(u)
  }

  /** Python's `str()` of a list of strings: `['a', 'b']`. */
  function ReprList(xs: seq<string>): (r: string)
    ensures |r| >= 2 && r[0] == '[' && r[|r| - 1] == ']'
    ensures r == "[]" <==> |xs| == 0
    ensures |xs| == 1 ==> r == "['" + xs[0] + "']"
  {
    "[" + ReprItems(xs) + "]"
  }

  function ReprItems(xs: seq<string>): string
  {
    if |xs| == 0 then ""
    else if |xs| == 1 then "'" + xs[0] + "'"
    else "'" + xs[0] + "', " + ReprItems(xs[1..])
  }

  function NotProviderError(name: string): string {
    "Entry point " + name + " does not export ActionProvider"
  }

  function LoadingError(name: string, message: string): string {
    "Error loading entry point " + name + ": " + message
  }

  /** The entry point for `name` loads a provider class. */
  predicate Loads(s: State, name: string) {
    Get(s.entryPoints, name).Some? && Get(s.entryPoints, name).value.Provides?
  }

  /** `_load_entry_point`: a provider class is kept among the loaded
      actions and returned; anything else records a discovery error and
      gives None; an unknown name gives None and changes nothing. */
  function Load(s: State, name: string): (r: (Option<ActionClass>, State))
    ensures r.1.entryPoints == s.entryPoints
    ensures r.0.Some? <==> Loads(s, name)
    ensures r.0.Some? ==> Get(s.entryPoints, name) == Some(Provides(r.0.value))
    ensures r.0.Some? ==> r.1.discoveryErrors == s.discoveryErrors
    ensures r.0.Some? ==> KeySet(r.1.actions) == KeySet(s.actions) + {name}
    ensures r.0.Some? ==> Get(r.1.actions, name) == r.0
    ensures r.0.Some? ==> forall n :: n != name ==> Get(r.1.actions, n) == Get(s.actions, n)
    ensures r.0.None? ==> r.1.actions == s.actions
    ensures r.0.None? && name !in KeySet(s.entryPoints) ==> r.1 == s
    ensures r.0.None? && name in KeySet(s.entryPoints) ==>
      |r.1.discoveryErrors| == |s.discoveryErrors| + 1 &&
      r.1.discoveryErrors[..|s.discoveryErrors|] == s.discoveryErrors
  {
    match Get(s.entryPoints, name)
    case None => (None, s)
    case Some(ep) =>
      match ep
      case Provides(cls) =>
        var actions := Store(s.actions, name, cls);
        PutGet(s.actions, name, cls, name);
        assert forall n :: n != name ==> Get(actions, n) == Get(s.actions, n) by {
          forall n | n != name ensures Get(actions, n) == Get(s.actions, n) {
            PutGet(s.actions, name, cls, n);
          }
        }
        (Some(cls), s.(actions := actions))
      case NotProvider =>
        (None, s.(discoveryErrors := s.discoveryErrors + [NotProviderError(name)]))
      case Raises(m) =>
        (None, s.(discoveryErrors := s.discoveryErrors + [LoadingError(name, m)]))
  }

  function LoadFailedError(name: string): string {
    "Action '" + name + "' entry point failed to load"
  }

  function NotFoundError(s: State, name: string): string {
    "Action '" + name + "' not found. Available actions: " +
      ReprList(Keys(s.actions) + Keys(s.entryPoints))
  }

  /** `get_action_class`: a loaded class as it is, else the class its entry
      point loads (now kept), else `ActionRegistryError`. A name is found
      exactly when it is loaded or its entry point loads a provider class;
      what is found is loaded afterwards and no other name's class changes.
      An unknown name changes nothing; a failed load leaves the loaded
      classes as they were. */
  function Lookup(s: State, name: string): (r: (Result<ActionClass, string>, State))
    ensures r.0.Success? <==> name in KeySet(s.actions) || Loads(s, name)
    ensures r.0.Success? ==> Get(r.1.actions, name) == Some(r.0.value)
    ensures name in KeySet(s.actions) ==> r.1 == s && Get(s.actions, name) == Some(r.0.value)
    ensures forall n :: n != name ==> Get(r.1.actions, n) == Get(s.actions, n)
    ensures r.1.entryPoints == s.entryPoints
    ensures !HasAction(s, name) ==> r == (Failure(NotFoundError(s, name)), s)
    ensures HasAction(s, name) && r.0.Failure? ==>
      r.0.error == LoadFailedError(name) && r.1.actions == s.actions
  {
    if name in KeySet(s.actions) then (Success(Get(s.actions, name).value), s)
    else if name in KeySet(s.entryPoints) then
      var (c, s') := Load(s, name);
      if c.Some? then (Success(c.value), s')
      else (Failure(LoadFailedError(name)), s')
    else (Failure(NotFoundError(s, name)), s)
  }

  /** Once found, a name is found again, as the same class, without
      loading anything. */
  lemma {:induction false} LookupCaches(s: State, name: string)
    requires Lookup(s, name).0.Success?
    ensures Lookup(Lookup(s, name).1, name) == Lookup(s, name)
  {
    var s' := Lookup(s, name).1;
    assert name in KeySet(s'.actions);
  }

  /** `inputs.get("action", "")` and every other input, unchanged and in
      order. */
  function SplitInputs(inputs: Dict<Json>): (r: (Json, Dict<Json>))
    ensures "action" in KeySet(inputs) ==> Get(inputs, "action") == Some(r.0)
    ensures "action" !in KeySet(inputs) ==> r.0 == JStr("") && r.1 == inputs
    ensures KeySet(r.1) == KeySet(inputs) - {"action"}
    ensures forall k :: k != "action" ==> Get(r.1, k) == Get(inputs, k)
  {
    (Get(inputs, "action").GetOr(JStr("")), Remove(inputs, "action"))
  }

  /** Putting the action back into the parameters gives the inputs again. */
  lemma {:induction false} SplitInputsRestores(inputs: Dict<Json>)
    requires "action" in KeySet(inputs)
    ensures var (action, params) := SplitInputs(inputs);
      ToMap(Store(params, "action", action)) == ToMap(inputs)
  {
    var (action, params) := SplitInputs(inputs);
    var back := Store(params, "action", action);
    forall k | k in KeySet(back) ensures Get(back, k) == Get(inputs, k) {
      PutGet(params, "action", action, k);
    }
    MapsAgree(back, inputs);
  }

  /** An action's `run` on a fresh instance: the action, the parameters and
      the context in, the outputs and the execution metadata it recorded
      out, or the message of the exception it raised. */
  type Runner = (Instance, Json, Dict<Json>, WorkflowContext) -> Result<(Dict<Json>, Dict<Json>), string>

  function ExecutionFailed(name: string, message: string): string {
    "Action '" + name + "' execution failed: " + message
  }

  /** `execute_action`: look the provider up, run a fresh instance on the
      split inputs and add its metadata to the outputs under
      "action_metadata"; every failure becomes `ActionExecutionError`. */
  function Execute(s: State, name: string, inputs: Dict<Json>, ctx: WorkflowContext, run: Runner)
    : (r: (Result<Dict<Json>, string>, State))
    ensures r.1 == Lookup(s, name).1
  {
    var (c, s') := Lookup(s, name);
    match c
    case Failure(e) => (Failure(ExecutionFailed(name, e)), s')
    case Success(cls) =>
      var (action, params) := SplitInputs(inputs);
      match run(New(cls), action, params, ctx)
      case Failure(e) => (Failure(ExecutionFailed(name, e)), s')
      case Success((outputs, metadata)) =>
        var inst := Instance(cls, metadata);
        (Success(Store(outputs, "action_metadata", JObj(GetActionMetadata(inst)))), s')
  }

  /** Execution succeeds exactly when the lookup and the run do, and the
      run sees the action apart from the other inputs. */
  lemma {:induction false} ExecuteSucceeds(s: State, name: string, inputs: Dict<Json>, ctx: WorkflowContext, run: Runner)
    ensures var c := Lookup(s, name).0;
      Execute(s, name, inputs, ctx, run).0.Success? <==>
        c.Success? && run(New(c.value), SplitInputs(inputs).0, SplitInputs(inputs).1, ctx).Success?
  {
    var c := Lookup(s, name).0;
    if c.Success? {
      var (action, params) := SplitInputs(inputs);
      assert Execute(s, name, inputs, ctx, run).0.Success? <==> run(New(c.value), action, params, ctx).Success?;
    }
  }

  /** A successful execution returns the run's outputs plus the action's
      metadata under "action_metadata". */
  lemma {:induction false} ExecuteResult(s: State, name: string, inputs: Dict<Json>, ctx: WorkflowContext, run: Runner)
    requires Execute(s, name, inputs, ctx, run).0.Success?
    ensures var r := Execute(s, name, inputs, ctx, run).0.value;
      var cls := Lookup(s, name).0.value;
      var (outputs, metadata) := run(New(cls), SplitInputs(inputs).0, SplitInputs(inputs).1, ctx).value;
      KeySet(r) == KeySet(outputs) + {"action_metadata"} &&
      Get(r, "action_metadata") == Some(JObj(GetActionMetadata(Instance(cls, metadata)))) &&
      forall k :: k != "action_metadata" ==> Get(r, k) == Get(outputs, k)
  {
    ExecuteSucceeds(s, name, inputs, ctx, run);
    var cls := Lookup(s, name).0.value;
    var (action, params) := SplitInputs(inputs);
    var (outputs, metadata) := run(New(cls), action, params, ctx).value;
    var md := JObj(GetActionMetadata(Instance(cls, metadata)));
    var r := Execute(s, name, inputs, ctx, run).0.value;
    assert r == Store(outputs, "action_metadata", md);
    forall k ensures Get(r, k) == if k == "action_metadata" then Some(md) else Get(outputs, k) {
      PutGet(outputs, "action_metadata", md, k);
    }
  }

  /** Every failure is reported as the named provider's execution
      failure. */
  lemma {:induction false} ExecuteFailure(s: State, name: string, inputs: Dict<Json>, ctx: WorkflowContext, run: Runner)
    requires Execute(s, name, inputs, ctx, run).0.Failure?
    ensures exists m :: Execute(s, name, inputs, ctx, run).0.error == ExecutionFailed(name, m)
  {
    var c := Lookup(s, name).0;
    var r := Execute(s, name, inputs, ctx, run).0;
    if c.Success? {
      var (action, params) := SplitInputs(inputs);
      var out := run(New(c.value), action, params, ctx);
      assert r.error == ExecutionFailed(name, out.error);
    } else {
      assert r.error == ExecutionFailed(name, c.error);
    }
  }

  /** A workflow step: its `name` (absent, null, or a string) and its
      optional `uses`. */
  datatype Step = Step(name: Option<Option<string>>, uses: Option<string>)

  /** `step.get('name', 'unnamed')` as an f-string prints it: "unnamed"
      when absent, "None" when null. */
  function StepLabel(name: Option<Option<string>>): (r: string)
    ensures name.None? ==> r == "unnamed"
    ensures name == Some(None) ==> r == "None"
    ensures name.Some? && name.value.Some? ==> r == name.value.value
  {
    match name
    case None => "unnamed"
    case Some(None) => "None"
    case Some(Some(n)) => n
  }

  /** The step uses an action the registry does not have. */
  predicate Unknown(s: State, step: Step) {
    step.uses.Some? && !HasAction(s, step.uses.value)
  }

  function UnknownActionError(s: State, step: Step): string
    requires step.uses.Some?
  {
    "Step '" + StepLabel(step.name) + "' uses unknown action '" + step.uses.value +
      "'. Available: " + ReprList(AvailableNames(s))
  }

  /** One error per step whose action is unknown, in step order. */
  function StepErrors(s: State, steps: seq<Step>): (r: seq<string>)
    ensures |r| <= |steps|
    decreases |steps|
  {
    if |steps| == 0 then []
    else
      var last := steps[|steps| - 1];
      StepErrors(s, steps[..|steps| - 1]) +
        (if Unknown(s, last) then [UnknownActionError(s, last)] else [])
  }

  /** `validate_workflow_actions`: the step errors (`workflow.get("steps",
      [])`), then the discovery errors. */
  function ValidationErrors(s: State, steps: Option<seq<Step>>): (r: seq<string>)
    ensures |r| >= |s.discoveryErrors|
    ensures r[|r| - |s.discoveryErrors|..] == s.discoveryErrors
  {
    StepErrors(s, steps.GetOr([])) + s.discoveryErrors
  }

  /** An error is reported exactly for each step that uses an unknown
      action. */
  lemma {:induction false} StepErrorsExact(s: State, steps: seq<Step>, e: string)
    ensures e in StepErrors(s, steps) <==>
      exists i :: 0 <= i < |steps| && Unknown(s, steps[i]) && e == UnknownActionError(s, steps[i])
    decreases |steps|
  {
    if |steps| > 0 {
      var front, last := steps[..|steps| - 1], steps[|steps| - 1];
      StepErrorsExact(s, front, e);
      if e in StepErrors(s, front) {
        var i :| 0 <= i < |front| && Unknown(s, front[i]) && e == UnknownActionError(s, front[i]);
        assert steps[i] == front[i];
      }
      if exists i :: 0 <= i < |steps| && Unknown(s, steps[i]) && e == UnknownActionError(s, steps[i]) {
        var i :| 0 <= i < |steps| && Unknown(s, steps[i]) && e == UnknownActionError(s, steps[i]);
        if i < |front| {
          assert front[i] == steps[i];
        }
      }
    }
  }

  /** A workflow is valid exactly when every step's action is available and
      discovery recorded no error. */
  lemma {:induction false} ValidWhenAllKnown(s: State, steps: seq<Step>)
    ensures ValidationErrors(s, Some(steps)) == [] <==>
      |s.discoveryErrors| == 0 && forall i :: 0 <= i < |steps| ==> !Unknown(s, steps[i])
  {
    if ValidationErrors(s, Some(steps)) == [] {
      forall i | 0 <= i < |steps| ensures !Unknown(s, steps[i]) {
        if steps[i].uses.Some? {
          StepErrorsExact(s, steps, UnknownActionError(s, steps[i]));
        }
      }
    }
    if |s.discoveryErrors| == 0 && forall i :: 0 <= i < |steps| ==> !Unknown(s, steps[i]) {
      if |StepErrors(s, steps)| > 0 {
        StepErrorsExact(s, steps, StepErrors(s, steps)[0]);
      }
    }
  }

  /** `__module__.split(".")[0]`: the module path up to its first dot. */
  function PackageOf(cls: ActionClass): (r: string)
    ensures |r| <= |cls.moduleName| && r == cls.moduleName[..|r|]
    ensures forall i :: 0 <= i < |r| ==> r[i] != '.'
    ensures |r| < |cls.moduleName| ==> cls.moduleName[|r|] == '.'
  {
    FirstSegment(cls.moduleName)
  }

  function FirstSegment(m: string): (r: string)
    ensures |r| <= |m| && r == m[..|r|]
    ensures forall i :: 0 <= i < |r| ==> r[i] != '.'
    ensures |r| < |m| ==> m[|r|] == '.'
  {
    if |m| == 0 || m[0] == '.' then ""
    else [m[0]] + FirstSegment(m[1..])
  }

  /** The actions grouped by package, in the order the loop builds it. */
  function Grouped(es: seq<(string, ActionClass)>): (r: Dict<seq<string>>)
    ensures forall p :: p in KeySet(r) ==> |Get(r, p).value| > 0
    decreases |es|
  {
    if |es| == 0 then []
    else
      var g := Grouped(es[..|es| - 1]);
      var (n, cls) := es[|es| - 1];
      var p := PackageOf(cls);
      var r := Store(g, p, Get(g, p).GetOr([]) + [n]);
      assert forall q :: q in KeySet(r) ==> |Get(r, q).value| > 0 by {
        forall q | q in KeySet(r) ensures |Get(r, q).value| > 0 {
          PutGet(g, p, Get(g, p).GetOr([]) + [n], q);
        }
      }
      r
  }

  /** `n` is in the list of package `p`. */
  predicate Listed(g: Dict<seq<string>>, p: string, n: string) {
    p in KeySet(g) && n in Get(g, p).value
  }

  /** Some action named `n` comes from package `p`. */
  predicate FromPackage(es: seq<(string, ActionClass)>, p: string, n: string) {
    exists i :: 0 <= i < |es| && es[i].0 == n && PackageOf(es[i].1) == p
  }

  lemma ListedNext(es: seq<(string, ActionClass)>, p: string, n: string)
    requires |es| > 0
    ensures Listed(Grouped(es), p, n) <==>
      (p == PackageOf(es[|es| - 1].1) && n == es[|es| - 1].0) || Listed(Grouped(es[..|es| - 1]), p, n)
  {
    var g := Grouped(es[..|es| - 1]);
    var (m, cls) := es[|es| - 1];
    var q := PackageOf(cls);
    var list := Get(g, q).GetOr([]) + [m];
    var r := Store(g, q, list);
    assert Grouped(es) == r;
    PutGet(g, q, list, p);
    if p == q {
      assert Get(r, p) == Some(list);
      assert n in list <==> n == m || (q in KeySet(g) && n in Get(g, q).value);
    } else {
      assert Get(r, p) == Get(g, p);
    }
  }

  lemma FromPackageNext(es: seq<(string, ActionClass)>, p: string, n: string)
    requires |es| > 0
    ensures FromPackage(es, p, n) <==>
      (p == PackageOf(es[|es| - 1].1) && n == es[|es| - 1].0) || FromPackage(es[..|es| - 1], p, n)
  {
    var front := es[..|es| - 1];
    if FromPackage(es, p, n) {
      var i :| 0 <= i < |es| && es[i].0 == n && PackageOf(es[i].1) == p;
      if i < |front| {
        assert front[i] == es[i];
      }
    }
    if FromPackage(front, p, n) {
      var i :| 0 <= i < |front| && front[i].0 == n && PackageOf(front[i].1) == p;
      assert es[i] == front[i];
    }
  }

  /** A name is listed under a package exactly when some action of that
      name comes from that package. */
  lemma {:induction false} GroupedMembers(es: seq<(string, ActionClass)>, p: string, n: string)
    ensures Listed(Grouped(es), p, n) <==> FromPackage(es, p, n)
    decreases |es|
  {
    if |es| > 0 {
      GroupedMembers(es[..|es| - 1], p, n);
      ListedNext(es, p, n);
      FromPackageNext(es, p, n);
    }
  }

  /** `list_actions_by_package` lists every registered action under exactly
      one package, the first segment of its module, and lists nothing
      else. */
  lemma {:induction false} OnePackageEach(actions: Dict<ActionClass>, p: string, n: string)
    ensures (p in KeySet(Grouped(actions)) && n in Get(Grouped(actions), p).value) <==>
      (n in KeySet(actions) && p == PackageOf(Get(actions, n).value))
  {
    GroupedMembers(actions, p, n);
  }

  /** The registry itself: the fields `execute_action` and the lookups
      read and update. */
  class ActionRegistry {
    var actions: Dict<ActionClass>
    var entryPoints: Dict<EntryPoint>
    var discoveryErrors: seq<string>

    function Snapshot(): State
      reads this
    {
      State(actions, entryPoints, discoveryErrors)
    }

    /** `__init__`, given what discovery found. */
    constructor (found: Dict<ActionClass>, points: Dict<EntryPoint>, errors: seq<string>)
      ensures Snapshot() == State(found, points, errors)
    {
      actions := found;
      entryPoints := points;
      discoveryErrors := errors;
    }

    /** `get_available_actions`: the loaded classes (a value, so the caller
        cannot change the registry through it). */
    method GetAvailableActions() returns (r: Dict<ActionClass>)
      ensures ToMap(r) == ToMap(actions)
    {
      r := actions;
    }

    /** `get_discovery_errors`. */
    method GetDiscoveryErrors() returns (r: seq<string>)
      ensures r == discoveryErrors
    {
      r := discoveryErrors;
    }

    /** `_load_entry_point`. */
    method LoadEntryPoint(name: string) returns (r: Option<ActionClass>)
      modifies this
      ensures (r, Snapshot()) == Load(old(Snapshot()), name)
    {
      var ep := Get(entryPoints, name);
      if ep.None? {
        return None;
      }
      match ep.value
      case Provides(cls) =>
        actions := Store(actions, name, cls);
        r := Some(cls);
      case NotProvider =>
        discoveryErrors := discoveryErrors + [NotProviderError(name)];
        r := None;
      case Raises(m) =>
        discoveryErrors := discoveryErrors + [LoadingError(name, m)];
        r := None;
    }

    /** `get_action_class`. */
    method GetActionClass(name: string) returns (r: Result<ActionClass, string>)
      modifies this
      ensures (r, Snapshot()) == Lookup(old(Snapshot()), name)
    {
      if name in KeySet(actions) {
        return Success(Get(actions, name).value);
      }
      if name in KeySet(entryPoints) {
        var c := LoadEntryPoint(name);
        if c.Some? {
          return Success(c.value);
        }
        return Failure(LoadFailedError(name));
      }
      r := Failure(NotFoundError(Snapshot(), name));
    }

    /** `execute_action`. */
    method ExecuteAction(name: string, inputs: Dict<Json>, ctx: WorkflowContext, run: Runner)
      returns (r: Result<Dict<Json>, string>)
      modifies this
      ensures (r, Snapshot()) == Execute(old(Snapshot()), name, inputs, ctx, run)
    {
      var c := GetActionClass(name);
      if c.Failure? {
        return Failure(ExecutionFailed(name, c.error));
      }
      var (action, params) := SplitInputs(inputs);
      var out := run(New(c.value), action, params, ctx);
      if out.Failure? {
        return Failure(ExecutionFailed(name, out.error));
      }
      var (outputs, metadata) := out.value;
      var inst := Instance(c.value, metadata);
      r := Success(Store(outputs, "action_metadata", JObj(GetActionMetadata(inst))));
    }

    /** `validate_workflow_actions`. */
    method ValidateWorkflowActions(steps: Option<seq<Step>>) returns (errors: seq<string>)
      ensures errors == ValidationErrors(Snapshot(), steps)
    {
      var ss := steps.GetOr([]);
      errors := [];
      for i := 0 to |ss|
        invariant errors == StepErrors(Snapshot(), ss[..i])
      {
        assert ss[..i + 1][..i] == ss[..i];
        var step := ss[i];
        if step.uses.Some? && !HasAction(Snapshot(), step.uses.value) {
          errors := errors + [UnknownActionError(Snapshot(), step)];
        }
      }
      assert ss[..|ss|] == ss;
      errors := errors + discoveryErrors;
    }

    /** `list_actions_by_package`. */
    method ListActionsByPackage() returns (packages: Dict<seq<string>>)
      ensures packages == Grouped(actions)
    {
      packages := [];
      for i := 0 to |actions|
        invariant packages == Grouped(actions[..i])
      {
        assert actions[..i + 1][..i] == actions[..i];
        var (n, cls) := actions[i];
        var p := PackageOf(cls);
        packages := Store(packages, p, Get(packages, p).GetOr([]) + [n]);
      }
      assert actions[..|actions|] == actions;
    }
  }
}
