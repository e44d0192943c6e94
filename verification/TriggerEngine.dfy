/** The configuration objects and the loops of the trigger engine. */
module TriggerEngine {
  import opened Sequences
  import opened Text
  import opened Operators
  import opened Triggers

  /** A function from the environment's text to a value, if one is given. */
  type Loader = Option<string -> Value>

  function Loaded(loader: Loader, text: string): Value {
    match loader
    case Some(load) => load(text)
    case None => Str(text)
  }

  /** The environment variables of one EnvVar: the first key with a value wins.
      `environ` holds the stripped texts of the process environment. */
  class EnvVar {
    const keys: seq<string>
    const loader: Loader
    const default: Value
    var isUserSet: bool
    var value: Value

    constructor (keys: seq<string>, loader: Loader, default: Value, environ: map<string, string>)
      ensures this.keys == keys && this.loader == loader && this.default == default
      ensures isUserSet <==>
        exists key | key in keys :: key in environ && environ[key] != "" && environ[key] != "\"\""
      ensures !isUserSet ==> value == default
      ensures forall i | 0 <= i < |keys| && IsGiven(environ, keys[i]) && !GivenBefore(environ, keys, i) ::
        value == Loaded(loader, environ[keys[i]])
    {
      this.keys, this.loader, this.default := keys, loader, default;
      isUserSet, value := false, default;
      new;
      var i := 0;
      while i < |keys|
        invariant 0 <= i <= |keys| && !isUserSet && value == default
        invariant this.keys == keys && this.loader == loader && this.default == default
        invariant !GivenBefore(environ, keys, i)
      {
        if IsGiven(environ, keys[i]) {
          isUserSet := true;
          value := Loaded(loader, environ[keys[i]]);
          break;
        }
        i := i + 1;
      }
    }

    /** `copy`: the user flag carries over; a falsy value counts as no value. */
    method Copy(newValue: Value, environ: map<string, string>) returns (env: EnvVar)
      ensures fresh(env) && env.keys == keys && env.loader == loader && env.default == default
      ensures Variable(env.value, env.isUserSet) == CopyVariable(Variable(value, isUserSet), newValue)
    {
      env := new EnvVar(keys, loader, default, environ);
      env.isUserSet := isUserSet;
      env.value := if newValue.Truthy() then newValue else value;
    }
  }

  /** `get_env` treats an empty text and a pair of quotes as unset. */
  predicate IsGiven(environ: map<string, string>, key: string) {
    key in environ && environ[key] != "" && environ[key] != "\"\""
  }

  predicate GivenBefore(environ: map<string, string>, keys: seq<string>, i: nat)
    requires i <= |keys|
  {
    exists j | 0 <= j < i :: IsGiven(environ, keys[j])
  }

  class Triggerable {
    const kind: Kind
    var userSet: set<string>
    var attrs: map<string, Value>
    var keysOrigin: map<string, Origin>

    function View(): Config
      reads this
    {
      Config(kind, attrs, keysOrigin, userSet)
    }

    constructor (c: Config)
      ensures View() == c
    {
      kind, userSet, attrs, keysOrigin := c.kind, c.userSet, c.attrs, c.keysOrigin;
    }

    /** `_set`: a key the object lacks is ignored, or raises AttributeError on
        DefaultVariables. */
    method SetAttr(key: string, value: Value) returns (raised: bool)
      modifies this
      ensures raised == (kind.Defaults? && key !in old(attrs))
      ensures View() == if key in old(attrs) then Set(old(View()), key, value) else old(View())
    {
      if key !in attrs {
        return kind.Defaults?;
      }
      if kind.Plain? {
        keysOrigin := keysOrigin[key := TRIGGER];
        attrs := attrs[key := value];
      } else {
        var copy := CopyVariable(Variable(attrs[key], key in userSet), value);
        attrs := attrs[key := copy.value];
        userSet := if copy.isUserSet then userSet + {key} else userSet - {key};
      }
      return false;
    }

    /** `set_value` of a test: the origin, if given, is recorded before anything
        raises, be it that the attribute is missing or that the value does not
        convert to the annotated type. */
    method SetValue(key: string, value: Value, origin: Option<Origin>, conversion: Value -> Option<Value>)
      returns (raised: bool)
      requires kind.Plain?
      modifies this`attrs, this`keysOrigin
      ensures raised == (key !in old(attrs) || conversion(value).None?)
      ensures attrs == if raised then old(attrs) else old(attrs)[key := conversion(value).value]
      ensures keysOrigin == if origin.Some? then old(keysOrigin)[key := origin.value] else old(keysOrigin)
      ensures origin == Some(PARAMETERIZED) ==> !Settable(View(), key)
    {
      if origin.Some? {
        keysOrigin := keysOrigin[key := origin.value];
      }
      if key !in attrs || conversion(value).None? {
        return true;
      }
      attrs := attrs[key := conversion(value).value];
      return false;
    }

    method HandleSettings(values: seq<Setting>)
      modifies this
      ensures View() == HandleTrigger(old(View()), values)
    {
      var i := 0;
      while i < |values|
        invariant 0 <= i <= |values|
        invariant HandleTrigger(View(), values[i..]) == HandleTrigger(old(View()), values)
      {
        var k := values[i].key;
        assert values[i..][0] == values[i] && values[i..][1..] == values[i + 1..];
        if k in attrs {
          var origin := ItemOrigin(View(), k);
          if origin.None? || origin.value.TRIGGER? {
            var _ := SetAttr(k, values[i].value);
          }
        }
        i := i + 1;
      }
    }
  }

  function Outcome<T>(r: Result<T>): Option<PyError> {
    match r
    case Ok(_) => None
    case Raised(e) => Some(e)
  }

  function Prepend(values: seq<Setting>, r: Result<seq<Setting>>): Result<seq<Setting>> {
    match r
    case Ok(rest) => Ok(values + rest)
    case Raised(e) => Raised(e)
  }

  lemma PrependTwice(values: seq<Setting>, s: Setting, r: Result<seq<Setting>>)
    ensures Prepend(values, Prepend([s], r)) == Prepend(values + [s], r)
  {
    if r.Ok? {
      assert values + ([s] + r.value) == values + [s] + r.value;
    }
  }

  /** The loop over the keys of a resource dictionary. */
  method CollectOlmVariables(config: Triggerable, operator: string, isSno: bool, keys: seq<string>)
    returns (r: Result<seq<Setting>>)
    ensures r == OlmVariables(config.attrs, operator, isSno, keys)
  {
    var variables: seq<Setting> := [];
    ghost var all := OlmVariables(config.attrs, operator, isSno, keys);
    assert keys[0..] == keys && (all.Ok? ==> [] + all.value == all.value);
    for i := 0 to |keys|
      invariant all == Prepend(variables, OlmVariables(config.attrs, operator, isSno, keys[i..]))
    {
      var key := keys[i];
      assert keys[i..][0] == key && keys[i..][1..] == keys[i + 1..];
      if key in config.attrs {
        var v := ResourceParam(config.attrs[key], key, operator, isSno);
        if v.Raised? {
          return Raised(v.error);
        }
        PrependTwice(variables, Setting(key, v.value), OlmVariables(config.attrs, operator, isSno, keys[i + 1..]));
        variables := variables + [Setting(key, v.value)];
      }
    }
    assert variables + [] == variables;
    return Ok(variables);
  }

  method GetOlmVariables(config: Triggerable, operator: string, isSno: bool) returns (r: Result<seq<Setting>>)
    ensures r == OlmVariables(config.attrs, operator, isSno, RESOURCE_KEYS)
  {
    r := CollectOlmVariables(config, operator, isSno, RESOURCE_KEYS);
  }

  method HandleTriggerOn(t: Trigger, config: Triggerable) returns (error: Option<PyError>)
    modifies config
    ensures var r := Handle(old(config.View()), t);
      && error == Outcome(r)
      && config.View() == match r case Ok(c) => c case Raised(_) => old(config.View())
  {
    match t
    case Fixed(_, values) =>
      config.HandleSettings(values);
      return None;
    case Olm(_, operator, isSno) =>
      var variables := GetOlmVariables(config, operator, isSno);
      if variables.Raised? {
        return Some(variables.error);
      }
      config.HandleSettings(variables.value);
      return None;
  }

  function Views(configs: seq<Triggerable>): (vs: seq<Config>)
    reads configs
    ensures |vs| == |configs| && forall i | 0 <= i < |configs| :: vs[i] == configs[i].View()
  {
    if configs == [] then [] else [configs[0].View()] + Views(configs[1..])
  }

  /** The inner loop: the condition is tried on the configurations until it
      holds on one. */
  method HoldsOnOne(condition: Condition, configs: seq<Triggerable>) returns (holds: bool)
    ensures holds == HoldsSomewhere(condition, Views(configs))
    ensures holds <==> exists j | 0 <= j < |configs| :: condition(configs[j].View()) == Holds
  {
    var j := 0;
    while j < |configs|
      invariant 0 <= j <= |configs|
      invariant forall k | 0 <= k < j :: condition(Views(configs)[k]) != Holds
    {
      if condition(configs[j].View()) == Holds {
        assert Views(configs)[j] == configs[j].View();
        return true;
      }
      j := j + 1;
    }
    forall k | 0 <= k < |configs|
      ensures condition(configs[k].View()) != Holds
    {
      assert Views(configs)[k] == configs[k].View();
    }
    return false;
  }

  ghost predicate MetOnObjects(condition: Condition, configs: seq<Triggerable>)
    reads configs
  {
    exists j | 0 <= j < |configs| :: condition(configs[j].View()) == Holds
  }

  /** As many conditions as there are hold on some configuration, and there is
      one. */
  method CheckCondition(conditions: seq<Condition>, configs: seq<Triggerable>) returns (isMet: bool)
    ensures isMet == IsConditionMet(conditions, Views(configs))
    ensures isMet <==> conditions != [] && forall i | 0 <= i < |conditions| :: MetOnObjects(conditions[i], configs)
  {
    var met := 0;
    for i := 0 to |conditions|
      invariant 0 <= met <= i
      invariant met == i <==> forall k | 0 <= k < i :: HoldsSomewhere(conditions[k], Views(configs))
      invariant forall k | 0 <= k < i :: HoldsSomewhere(conditions[k], Views(configs)) == MetOnObjects(conditions[k], configs)
    {
      var holds := HoldsOnOne(conditions[i], configs);
      assert holds == MetOnObjects(conditions[i], configs);
      if holds {
        met := met + 1;
      }
    }
    return met > 0 && met == |conditions|;
  }

  // ---------- the pass over objects ----------

  /** The states of the objects a list names; an object may stand in it more
      than once and is then handled more than once. */
  type Store = map<Triggerable, Config>

  ghost function StoreOf(configs: seq<Triggerable>): Store
    reads configs
  {
    map o | o in configs :: o.View()
  }

  ghost predicate Covers(store: Store, configs: seq<Triggerable>) {
    forall o | o in configs :: o in store
  }

  datatype StorePass = StorePass(store: Store, error: Option<PyError>)

  ghost function HandleEach(t: Trigger, configs: seq<Triggerable>, store: Store): (p: StorePass)
    requires Covers(store, configs)
    ensures p.store.Keys == store.Keys
  {
    if configs == [] then StorePass(store, None)
    else match Handle(store[configs[0]], t)
      case Raised(e) => StorePass(store, Some(e))
      case Ok(c) => HandleEach(t, configs[1..], store[configs[0] := c])
  }

  ghost function HandleEachMet(met: seq<Trigger>, configs: seq<Triggerable>, store: Store): (p: StorePass)
    requires Covers(store, configs)
    ensures p.store.Keys == store.Keys
    decreases |met|
  {
    if met == [] then StorePass(store, None)
    else
      var p := HandleEach(met[0], configs, store);
      if p.error.Some? then p else HandleEachMet(met[1..], configs, p.store)
  }

  ghost function ViewsIn(configs: seq<Triggerable>, store: Store): (vs: seq<Config>)
    requires Covers(store, configs)
    ensures |vs| == |configs| && forall i | 0 <= i < |configs| :: vs[i] == store[configs[i]]
  {
    if configs == [] then [] else [store[configs[0]]] + ViewsIn(configs[1..], store)
  }

  lemma {:induction false} HandleEachFrame(t: Trigger, configs: seq<Triggerable>, store: Store, o: Triggerable)
    requires Covers(store, configs) && o in store && o !in configs
    ensures HandleEach(t, configs, store).store[o] == store[o]
  {
    if configs != [] && Handle(store[configs[0]], t).Ok? {
      HandleEachFrame(t, configs[1..], store[configs[0] := Handle(store[configs[0]], t).value], o);
    }
  }

  lemma {:induction false} ViewsFrame(configs: seq<Triggerable>, store: Store, o: Triggerable, c: Config)
    requires Covers(store, configs) && o !in configs
    ensures ViewsIn(configs, store[o := c]) == ViewsIn(configs, store)
  {
  }

  /** Over distinct objects the inner loop is `ApplyTrigger`. */
  lemma {:induction false} HandleEachDistinct(t: Trigger, configs: seq<Triggerable>, store: Store)
    requires Covers(store, configs) && Distinct(configs)
    ensures var p := HandleEach(t, configs, store);
      Pass(ViewsIn(configs, p.store), p.error) == ApplyTrigger(t, ViewsIn(configs, store))
  {
    if configs != [] {
      var o := configs[0];
      var rest := configs[1..];
      assert configs == [o] + rest;
      DistinctCons(o, rest);
      var views := ViewsIn(configs, store);
      assert views[1..] == ViewsIn(rest, store);
      var r := Handle(store[o], t);
      if r.Ok? {
        var next := store[o := r.value];
        ViewsFrame(rest, store, o, r.value);
        HandleEachDistinct(t, rest, next);
        HandleEachFrame(t, rest, next, o);
        var p := HandleEach(t, rest, next);
        assert ViewsIn(configs, p.store) == [r.value] + ViewsIn(rest, p.store);
      }
    }
  }

  lemma {:induction false} HandleEachMetDistinct(met: seq<Trigger>, configs: seq<Triggerable>, store: Store)
    requires Covers(store, configs) && Distinct(configs)
    ensures var p := HandleEachMet(met, configs, store);
      Pass(ViewsIn(configs, p.store), p.error) == ApplyTriggers(met, ViewsIn(configs, store))
    decreases |met|
  {
    if met != [] {
      var p := HandleEach(met[0], configs, store);
      HandleEachDistinct(met[0], configs, store);
      if p.error.None? {
        HandleEachMetDistinct(met[1..], configs, p.store);
      }
    }
  }

  /** One configuration of the list, with what the others then hold. */
  method HandleAt(t: Trigger, configs: seq<Triggerable>, i: nat) returns (error: Option<PyError>)
    requires i < |configs|
    modifies configs[i]
    ensures StorePass(StoreOf(configs), error) ==
      match Handle(old(StoreOf(configs))[configs[i]], t)
      case Raised(e) => StorePass(old(StoreOf(configs)), Some(e))
      case Ok(c) => StorePass(old(StoreOf(configs))[configs[i] := c], None)
  {
    ghost var before := StoreOf(configs);
    error := HandleTriggerOn(t, configs[i]);
    assert StoreOf(configs) == before[configs[i] := configs[i].View()];
  }

  /** The inner loop: one trigger over the configurations, in place. */
  method HandleOver(t: Trigger, configs: seq<Triggerable>) returns (error: Option<PyError>)
    modifies configs
    ensures StorePass(StoreOf(configs), error) == HandleEach(t, configs, old(StoreOf(configs)))
  {
    ghost var whole := HandleEach(t, configs, StoreOf(configs));
    assert configs[0..] == configs;
    for i := 0 to |configs|
      invariant HandleEach(t, configs[i..], StoreOf(configs)) == whole
    {
      assert configs[i..][0] == configs[i] && configs[i..][1..] == configs[i + 1..];
      error := HandleAt(t, configs, i);
      if error.Some? {
        return error;
      }
    }
    return None;
  }

  /** The first loop of a pass: the triggers met, in order. */
  method CollectMet(configs: seq<Triggerable>, triggers: seq<Trigger>) returns (met: seq<Trigger>)
    ensures met == MetTriggers(triggers, Views(configs))
  {
    ghost var views := Views(configs);
    met := [];
    assert triggers[0..] == triggers && [] + MetTriggers(triggers, views) == MetTriggers(triggers, views);
    for i := 0 to |triggers|
      invariant met + MetTriggers(triggers[i..], views) == MetTriggers(triggers, views)
    {
      assert triggers[i..][0] == triggers[i] && triggers[i..][1..] == triggers[i + 1..];
      var isMet := CheckCondition(triggers[i].conditions, configs);
      if isMet {
        met := met + [triggers[i]];
      }
    }
    assert met + [] == met;
  }

  /** The second loop of a pass. */
  method HandleMet(configs: seq<Triggerable>, met: seq<Trigger>) returns (error: Option<PyError>)
    modifies configs
    ensures StorePass(StoreOf(configs), error) == HandleEachMet(met, configs, old(StoreOf(configs)))
  {
    ghost var whole := HandleEachMet(met, configs, StoreOf(configs));
    assert met[0..] == met;
    for i := 0 to |met|
      invariant HandleEachMet(met[i..], configs, StoreOf(configs)) == whole
    {
      assert met[i..][0] == met[i] && met[i..][1..] == met[i + 1..];
      error := HandleOver(met[i], configs);
      if error.Some? {
        return error;
      }
    }
    return None;
  }

  /** A whole pass: which triggers are met is settled before any is handled. Over
      distinct objects it is `TriggerPass` of their states. */
  method TriggerConfigurations(configs: seq<Triggerable>, triggers: seq<Trigger>) returns (error: Option<PyError>)
    modifies configs
    ensures StorePass(StoreOf(configs), error) ==
      HandleEachMet(MetTriggers(triggers, old(Views(configs))), configs, old(StoreOf(configs)))
    ensures Distinct(configs) ==> Pass(Views(configs), error) == TriggerPass(old(Views(configs)), triggers)
  {
    ghost var views := Views(configs);
    ghost var store := StoreOf(configs);
    assert ViewsIn(configs, store) == views;
    var met := CollectMet(configs, triggers);
    error := HandleMet(configs, met);
    assert ViewsIn(configs, StoreOf(configs)) == Views(configs);
    if Distinct(configs) {
      HandleEachMetDistinct(met, configs, store);
    }
  }
}
