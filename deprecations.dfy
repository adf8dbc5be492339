/** Support for deprecated keyword arguments: renaming old parameter names to new ones
    (`parameters_renamed`, `_remap_kwargs`), remapping old parameters to new ones through
    a user function (`parameters_remapped`) and tagging callables as deprecated. */
module Deprecations {
  import opened Wrappers
  import opened Sets

  type Name = string

  /** One `RioDeprecationWarning`, identified by the parameter names it mentions. */
  datatype Warning = Warning(funcName: string, oldName: Name, newName: Name)

  /** The keyword-argument dict after one `kwargs[new] = kwargs.pop(old)`, when `old` is present. */
  function RenameStep<V>(kwargs: map<Name, V>, oldName: Name, newName: Name): map<Name, V> {
    if oldName in kwargs then (kwargs - {oldName})[newName := kwargs[oldName]] else kwargs
  }

  /** The dict after `_remap_kwargs` has processed `pairs`, in order. */
  function Remapped<V>(kwargs: map<Name, V>, pairs: seq<(Name, Name)>): map<Name, V>
    decreases |pairs|
  {
    if pairs == [] then kwargs
    else
      var last := pairs[|pairs| - 1];
      RenameStep(Remapped(kwargs, pairs[..|pairs| - 1]), last.0, last.1)
  }

  /** The warnings `_remap_kwargs` issues for `pairs`: one for each old name that is
      present at the moment its pair is processed. */
  function RemapWarnings<V>(funcName: string, kwargs: map<Name, V>, pairs: seq<(Name, Name)>): seq<Warning>
    decreases |pairs|
  {
    if pairs == [] then []
    else
      var last := pairs[|pairs| - 1];
      var before := pairs[..|pairs| - 1];
      RemapWarnings(funcName, kwargs, before)
        + (if last.0 in Remapped(kwargs, before) then [Warning(funcName, last.0, last.1)] else [])
  }

  /** `_remap_kwargs`: renames, in the mapping's order, every old name present in `kwargs`
      to its new name, and issues one warning per rename. */
  method RemapKwargs<V>(funcName: string, kwargs: map<Name, V>, oldNamesToNewNames: seq<(Name, Name)>)
    returns (result: map<Name, V>, warnings: seq<Warning>)
    ensures result == Remapped(kwargs, oldNamesToNewNames)
    ensures warnings == RemapWarnings(funcName, kwargs, oldNamesToNewNames)
  {
    result, warnings := kwargs, [];
    for i := 0 to |oldNamesToNewNames|
      invariant result == Remapped(kwargs, oldNamesToNewNames[..i])
      invariant warnings == RemapWarnings(funcName, kwargs, oldNamesToNewNames[..i])
    {
      var (oldName, newName) := oldNamesToNewNames[i];
      assert oldNamesToNewNames[..i + 1][..i] == oldNamesToNewNames[..i];
      if oldName in result {
        var value := result[oldName];
        result := result - {oldName};
        result := result[newName := value];
        warnings := warnings + [Warning(funcName, oldName, newName)];
      }
    }
    assert oldNamesToNewNames[..|oldNamesToNewNames|] == oldNamesToNewNames;
  }

  /** Every name mentioned by some pair, old or new. */
  function Mentioned(pairs: seq<(Name, Name)>): set<Name> {
    (set i | 0 <= i < |pairs| :: pairs[i].0) + (set i | 0 <= i < |pairs| :: pairs[i].1)
  }

  /** No name occurs twice among the pairs, as old or as new name: no rename can cascade. */
  predicate Independent(pairs: seq<(Name, Name)>) {
    && (forall i :: 0 <= i < |pairs| ==> pairs[i].0 != pairs[i].1)
    && (forall i, j :: 0 <= i < j < |pairs| ==>
          pairs[i].0 != pairs[j].0 && pairs[i].0 != pairs[j].1 &&
          pairs[i].1 != pairs[j].0 && pairs[i].1 != pairs[j].1)
  }

  /** Keys that no pair mentions are neither added, removed nor changed. */
  lemma {:induction false} UnmentionedKeysUnchanged<V>(kwargs: map<Name, V>, pairs: seq<(Name, Name)>, k: Name)
    requires k !in Mentioned(pairs)
    ensures k in Remapped(kwargs, pairs) <==> k in kwargs
    ensures k in kwargs ==> Remapped(kwargs, pairs)[k] == kwargs[k]
    decreases |pairs|
  {
    if pairs != [] {
      var before := pairs[..|pairs| - 1];
      assert k !in Mentioned(before) by {
        forall i | 0 <= i < |before| ensures before[i] == pairs[i] { }
      }
      assert k != pairs[|pairs| - 1].0 && k != pairs[|pairs| - 1].1;
      UnmentionedKeysUnchanged(kwargs, before, k);
    }
  }

  /** Without cascading, every pair is applied to the original dict: a present old name
      disappears and its value moves to the new name; an absent old name changes nothing
      at either name. */
  lemma {:induction false} IndependentRenames<V>(kwargs: map<Name, V>, pairs: seq<(Name, Name)>, i: nat)
    requires Independent(pairs) && i < |pairs|
    ensures pairs[i].0 in kwargs ==>
              pairs[i].0 !in Remapped(kwargs, pairs) && pairs[i].1 in Remapped(kwargs, pairs) &&
              Remapped(kwargs, pairs)[pairs[i].1] == kwargs[pairs[i].0]
    ensures pairs[i].0 !in kwargs ==>
              pairs[i].0 !in Remapped(kwargs, pairs) &&
              (pairs[i].1 in Remapped(kwargs, pairs) <==> pairs[i].1 in kwargs) &&
              (pairs[i].1 in kwargs ==> Remapped(kwargs, pairs)[pairs[i].1] == kwargs[pairs[i].1])
    decreases |pairs|
  {
    var before := pairs[..|pairs| - 1];
    var last := pairs[|pairs| - 1];
    assert Independent(before) by {
      forall j | 0 <= j < |before| ensures before[j] == pairs[j] { }
    }
    if i == |pairs| - 1 {
      assert pairs[i].0 !in Mentioned(before) && pairs[i].1 !in Mentioned(before) by {
        forall j | 0 <= j < |before| ensures before[j].0 != last.0 && before[j].1 != last.0
          && before[j].0 != last.1 && before[j].1 != last.1 {
          assert before[j] == pairs[j];
        }
      }
      UnmentionedKeysUnchanged(kwargs, before, last.0);
      UnmentionedKeysUnchanged(kwargs, before, last.1);
    } else {
      assert before[i] == pairs[i];
      IndependentRenames(kwargs, before, i);
      assert last.0 != pairs[i].0 && last.0 != pairs[i].1 && last.1 != pairs[i].0 && last.1 != pairs[i].1;
    }
  }

  /** Without cascading, there is exactly one warning for each pair whose old name was
      present in the original dict, in the mapping's order. */
  lemma {:induction false} IndependentWarnings<V>(funcName: string, kwargs: map<Name, V>, pairs: seq<(Name, Name)>)
    requires Independent(pairs)
    ensures RemapWarnings(funcName, kwargs, pairs) == PresentWarnings(funcName, kwargs, pairs)
    decreases |pairs|
  {
    if pairs != [] {
      var before := pairs[..|pairs| - 1];
      var last := pairs[|pairs| - 1];
      assert Independent(before) by {
        forall j | 0 <= j < |before| ensures before[j] == pairs[j] { }
      }
      IndependentWarnings(funcName, kwargs, before);
      assert last.0 !in Mentioned(before) by {
        forall j | 0 <= j < |before| ensures before[j].0 != last.0 && before[j].1 != last.0 {
          assert before[j] == pairs[j];
        }
      }
      UnmentionedKeysUnchanged(kwargs, before, last.0);
    }
  }

  /** One warning for each pair whose old name is a key of `kwargs`, in order. */
  function PresentWarnings<V>(funcName: string, kwargs: map<Name, V>, pairs: seq<(Name, Name)>): seq<Warning>
    decreases |pairs|
  {
    if pairs == [] then []
    else
      var last := pairs[|pairs| - 1];
      PresentWarnings(funcName, kwargs, pairs[..|pairs| - 1])
        + (if last.0 in kwargs then [Warning(funcName, last.0, last.1)] else [])
  }

  /** An existing value under the new name is overwritten by the renamed value. */
  lemma RenameOverwrites<V>(kwargs: map<Name, V>, oldName: Name, newName: Name)
    requires oldName in kwargs && newName in kwargs && oldName != newName
    ensures RenameStep(kwargs, oldName, newName)[newName] == kwargs[oldName]
    ensures oldName !in RenameStep(kwargs, oldName, newName)
  {
  }

  /** Pairs are processed in order, so chained renames cascade: with `a` renamed to `b`
      and `b` to `c`, a value passed as `a` ends up under `c`, with two warnings. */
  lemma ChainedRenamesCascade(v: int)
    ensures Remapped(map["a" := v], [("a", "b"), ("b", "c")]) == map["c" := v]
    ensures |RemapWarnings("f", map["a" := v], [("a", "b"), ("b", "c")])| == 2
  {
    var pairs := [("a", "b"), ("b", "c")];
    assert pairs[..1] == [("a", "b")];
    assert pairs[..1][..0] == [];
    assert Remapped(map["a" := v], pairs[..1]) == map["b" := v];
  }

  /** Why `parameters_remapped` can fail. */
  datatype RemapError = UnpackError(oldName: Name, entries: nat)

  /** The single key of a one-entry dict. */
  lemma SingleKey<K, V>(d: map<K, V>, a: K, b: K)
    requires |d| == 1 && a in d && b in d
    ensures a == b
  {
    if a != b {
      assert {a, b} <= d.Keys;
      assert |{a, b}| == 2;
      SubsetCardinality({a, b}, d.Keys);
    }
  }

  /** The key of a one-entry dict, as `[[key, value]] = d.items()` unpacks it. */
  function OnlyKey<K, V>(d: map<K, V>): (k: K)
    requires |d| == 1
    ensures k in d && d.Keys == {k}
  {
    var k :| k in d;
    assert d.Keys == {k} by {
      forall k' | k' in d ensures k' == k { SingleKey(d, k, k'); }
    }
    k
  }

  /** State of the `parameters_remapped` wrapper after some of the remap functions. */
  datatype RemapState<V> = RemapState(kwargs: map<Name, V>, warnings: seq<Warning>)

  /** The wrapper of `parameters_remapped` after processing `params`, in order: an old
      parameter that is present is popped and replaced by the single (name, value) entry
      its remap function returns; a result with any other number of entries fails the
      unpacking. */
  ghost function RemapWith<V>(funcName: string, kwargs: map<Name, V>, params: seq<(Name, V -> map<Name, V>)>)
    : Result<RemapState<V>, RemapError>
    decreases |params|
  {
    if params == [] then Success(RemapState(kwargs, []))
    else
      var (oldName, remap) := params[|params| - 1];
      match RemapWith(funcName, kwargs, params[..|params| - 1])
      case Failure(e) => Failure(e)
      case Success(st) =>
        if oldName !in st.kwargs then Success(st)
        else
          var d := remap(st.kwargs[oldName]);
          if |d| != 1 then Failure(UnpackError(oldName, |d|))
          else
            var newName := OnlyKey(d);
            Success(RemapState((st.kwargs - {oldName})[newName := d[newName]],
                               st.warnings + [Warning(funcName, oldName, newName)]))
  }

  /** The `parameters_remapped` wrapper around a call of the wrapped function. */
  method RemapParameters<V>(funcName: string, kwargs: map<Name, V>, params: seq<(Name, V -> map<Name, V>)>)
    returns (result: Result<RemapState<V>, RemapError>)
    ensures result == RemapWith(funcName, kwargs, params)
  {
    var kw, warnings := kwargs, [];
    for i := 0 to |params|
      invariant RemapWith(funcName, kwargs, params[..i]) == Success(RemapState(kw, warnings))
    {
      var (oldName, remap) := params[i];
      assert params[..i + 1][..i] == params[..i];
      if oldName in kw {
        var oldValue := kw[oldName];
        kw := kw - {oldName};
        var d := remap(oldValue);
        if |d| != 1 {
          FailureIsFinal(funcName, kwargs, params, i + 1);
          return Failure(UnpackError(oldName, |d|));
        }
        var newName :| newName in d;
        SingleKey(d, newName, OnlyKey(d));
        kw := kw[newName := d[newName]];
        warnings := warnings + [Warning(funcName, oldName, newName)];
      }
    }
    assert params[..|params|] == params;
    return Success(RemapState(kw, warnings));
  }

  /** Once a remap function has failed, the wrapper's outcome is that failure. */
  lemma {:induction false} FailureIsFinal<V>(funcName: string, kwargs: map<Name, V>, params: seq<(Name, V -> map<Name, V>)>, i: nat)
    requires i <= |params| && RemapWith(funcName, kwargs, params[..i]).Failure?
    ensures RemapWith(funcName, kwargs, params) == RemapWith(funcName, kwargs, params[..i])
    decreases |params| - i
  {
    if i < |params| {
      assert params[..i + 1][..i] == params[..i];
      FailureIsFinal(funcName, kwargs, params, i + 1);
    } else {
      assert params[..i] == params;
    }
  }

  /** A remapped parameter ends up under the name its remap function chose, with the value
      it returned, and the old name is gone. */
  lemma RemapSingleParameter<V>(funcName: string, kwargs: map<Name, V>, oldName: Name, remap: V -> map<Name, V>, newName: Name, v: V)
    requires oldName in kwargs && remap(kwargs[oldName]) == map[newName := v]
    ensures RemapWith(funcName, kwargs, [(oldName, remap)])
         == Success(RemapState((kwargs - {oldName})[newName := v], [Warning(funcName, oldName, newName)]))
  {
    var params := [(oldName, remap)];
    assert params[..0] == [];
    assert RemapWith(funcName, kwargs, params[..0]) == Success(RemapState(kwargs, []));
    var d := remap(kwargs[oldName]);
    assert |d| == 1;
    assert forall k :: k in d <==> k == newName;
    assert OnlyKey(d) == newName;
    assert params[|params| - 1] == (oldName, remap);
    assert [] + [Warning(funcName, oldName, newName)] == [Warning(funcName, oldName, newName)];
  }

  /** A remap function returning no entry, or two, makes the wrapper fail. */
  lemma RemapUnpackFails<V>(funcName: string, kwargs: map<Name, V>, oldName: Name, remap: V -> map<Name, V>)
    requires oldName in kwargs && |remap(kwargs[oldName])| != 1
    ensures RemapWith(funcName, kwargs, [(oldName, remap)]).Failure?
  {
    var params := [(oldName, remap)];
    assert params[..0] == [];
  }

  /** `parameters_renamed` applied to a plain function: the wrapper renames the keyword
      arguments, then calls the function with the renamed ones. */
  method CallRenamed<V, R>(funcName: string, callee: map<Name, V> -> R, kwargs: map<Name, V>, oldNamesToNewNames: seq<(Name, Name)>)
    returns (result: R, warnings: seq<Warning>)
    ensures result == callee(Remapped(kwargs, oldNamesToNewNames))
    ensures warnings == RemapWarnings(funcName, kwargs, oldNamesToNewNames)
  {
    var renamed;
    renamed, warnings := RemapKwargs(funcName, kwargs, oldNamesToNewNames);
    result := callee(renamed);
  }

  /** A component class, as far as parameter deprecation is concerned. */
  class ComponentClass {
    var deprecatedParameterNames: map<Name, Name>

    constructor (names: map<Name, Name>)
      ensures deprecatedParameterNames == names
    {
      deprecatedParameterNames := names;
    }
  }

  /** `parameters_renamed` applied to a component class: the mapping is merged into the
      class's `_deprecated_parameter_names_` (later pairs win, as in `dict.update`), and the
      same class is returned. */
  method ParametersRenamedOnClass(cls: ComponentClass, oldNamesToNewNames: seq<(Name, Name)>)
    returns (r: ComponentClass)
    modifies cls
    ensures r == cls
    ensures cls.deprecatedParameterNames.Keys
         == old(cls.deprecatedParameterNames).Keys + (set i | 0 <= i < |oldNamesToNewNames| :: oldNamesToNewNames[i].0)
    ensures forall k :: k in old(cls.deprecatedParameterNames) && k !in (set i | 0 <= i < |oldNamesToNewNames| :: oldNamesToNewNames[i].0)
              ==> cls.deprecatedParameterNames[k] == old(cls.deprecatedParameterNames)[k]
    ensures forall i :: 0 <= i < |oldNamesToNewNames| &&
              (forall j :: i < j < |oldNamesToNewNames| ==> oldNamesToNewNames[j].0 != oldNamesToNewNames[i].0)
              ==> cls.deprecatedParameterNames[oldNamesToNewNames[i].0] == oldNamesToNewNames[i].1
  {
    for i := 0 to |oldNamesToNewNames|
      invariant cls.deprecatedParameterNames.Keys
             == old(cls.deprecatedParameterNames).Keys + (set j | 0 <= j < i :: oldNamesToNewNames[j].0)
      invariant forall k :: k in old(cls.deprecatedParameterNames) && k !in (set j | 0 <= j < i :: oldNamesToNewNames[j].0)
                  ==> cls.deprecatedParameterNames[k] == old(cls.deprecatedParameterNames)[k]
      invariant forall j :: 0 <= j < i && (forall l :: j < l < i ==> oldNamesToNewNames[l].0 != oldNamesToNewNames[j].0)
                  ==> cls.deprecatedParameterNames[oldNamesToNewNames[j].0] == oldNamesToNewNames[j].1
    {
      var (oldName, newName) := oldNamesToNewNames[i];
      cls.deprecatedParameterNames := cls.deprecatedParameterNames[oldName := newName];
    }
    r := cls;
  }

  /** A callable, as far as the `deprecated` decorator is concerned. */
  class Callable {
    var deprecatedSince: Option<string>
    var deprecatedDescription: Option<string>

    constructor ()
      ensures deprecatedSince == None && deprecatedDescription == None
    {
      deprecatedSince, deprecatedDescription := None, None;
    }
  }

  /** `deprecated(since=..., description=...)`: records both on the callable and returns
      the same callable. */
  method Deprecated(c: Callable, since: string, description: string) returns (r: Callable)
    modifies c
    ensures r == c
    ensures c.deprecatedSince == Some(since) && c.deprecatedDescription == Some(description)
  {
    c.deprecatedSince := Some(since);
    c.deprecatedDescription := Some(description);
    r := c;
  }
}
