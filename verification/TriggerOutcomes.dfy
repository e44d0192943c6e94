/** Which triggers a pass handles, in what order, and what a configuration holds
    afterwards, stated over conditions, settings and numbers alone. */
module TriggerOutcomes {
  import opened Text
  import opened Operators
  import opened Triggers
  import opened TriggerProperties

  // ---------- which triggers a pass handles ----------

  lemma {:induction false} MetConcat(xs: seq<Trigger>, ys: seq<Trigger>, configs: seq<Config>)
    ensures MetTriggers(xs + ys, configs) == MetTriggers(xs, configs) + MetTriggers(ys, configs)
    decreases |xs|
  {
    if xs == [] {
      assert xs + ys == ys;
    } else {
      assert (xs + ys)[0] == xs[0] && (xs + ys)[1..] == xs[1..] + ys;
      MetConcat(xs[1..], ys, configs);
    }
  }

  lemma MetOne(t: Trigger, configs: seq<Config>)
    ensures MetTriggers([t], configs) == if IsConditionMet(t.conditions, configs) then [t] else []
  {
    assert [t][1..] == [];
  }

  /** A trigger without conditions, or with one that holds on no configuration,
      may as well not be there. */
  lemma UnmetIsInvisible(configs: seq<Config>, before: seq<Trigger>, t: Trigger, after: seq<Trigger>)
    requires t.conditions == [] ||
      exists i | 0 <= i < |t.conditions| :: forall c | c in configs :: t.conditions[i](c) != Holds
    ensures TriggerPass(configs, before + [t] + after) == TriggerPass(configs, before + after)
  {
    MetOne(t, configs);
    MetConcat(before, [t], configs);
    MetConcat(before + [t], after, configs);
    MetConcat(before, after, configs);
    assert MetTriggers(before, configs) + [] == MetTriggers(before, configs);
    if t.conditions != [] {
      var i :| 0 <= i < |t.conditions| && forall c | c in configs :: t.conditions[i](c) != Holds;
      assert !HoldsSomewhere(t.conditions[i], configs);
    }
  }

  /** One with conditions, each of which holds on some configuration at the start
      of the pass, is handled on what the triggers before it left. */
  lemma MetIsHandled(configs: seq<Config>, before: seq<Trigger>, t: Trigger)
    requires t.conditions != []
    requires forall i | 0 <= i < |t.conditions| :: exists c | c in configs :: t.conditions[i](c) == Holds
    ensures var p := TriggerPass(configs, before);
      TriggerPass(configs, before + [t]) == if p.error.Some? then p else ApplyTrigger(t, p.configs)
  {
    forall i | 0 <= i < |t.conditions|
      ensures HoldsSomewhere(t.conditions[i], configs)
    {
      var c :| c in configs && t.conditions[i](c) == Holds;
      var j :| 0 <= j < |configs| && configs[j] == c;
      assert t.conditions[i](configs[j]) == Holds;
    }
    MetOne(t, configs);
    MetConcat(before, [t], configs);
    ApplySnoc(MetTriggers(before, configs), t, configs);
  }

  lemma {:induction false} ApplySnoc(met: seq<Trigger>, t: Trigger, configs: seq<Config>)
    ensures var p := ApplyTriggers(met, configs);
      ApplyTriggers(met + [t], configs) == if p.error.Some? then p else ApplyTrigger(t, p.configs)
    decreases |met|
  {
    if met == [] {
      assert [] + [t] == [t] && [t][1..] == [];
      var p := ApplyTrigger(t, configs);
      assert ApplyTriggers([], p.configs) == Pass(p.configs, None);
    } else {
      assert (met + [t])[0] == met[0] && (met + [t])[1..] == met[1..] + [t];
      var p := ApplyTrigger(met[0], configs);
      if p.error.None? {
        ApplySnoc(met[1..], t, p.configs);
      }
    }
  }

  // ---------- errors ----------

  /** The configurations before the one that raises are handled, the rest is as
      it was. */
  lemma {:induction false} RaisedPartway(t: Trigger, configs: seq<Config>) returns (k: nat)
    requires ApplyTrigger(t, configs).error.Some?
    ensures var p := ApplyTrigger(t, configs);
      && k < |configs| && Handle(configs[k], t) == Raised(p.error.value)
      && (forall i | 0 <= i < k :: Handle(configs[i], t) == Ok(p.configs[i]))
      && (forall i | k <= i < |configs| :: p.configs[i] == configs[i])
  {
    if Handle(configs[0], t).Raised? {
      k := 0;
    } else {
      var j := RaisedPartway(t, configs[1..]);
      k := j + 1;
      var p := ApplyTrigger(t, configs);
      var rest := ApplyTrigger(t, configs[1..]);
      assert p.configs[1..] == rest.configs;
      forall i | 0 < i < |configs|
        ensures configs[i] == configs[1..][i - 1] && p.configs[i] == rest.configs[i - 1]
      {
      }
    }
  }

  /** The whole pass ends where the first trigger raises. */
  lemma {:induction false} PassStops(met: seq<Trigger>, configs: seq<Config>) returns (m: nat)
    requires ApplyTriggers(met, configs).error.Some?
    ensures m < |met| && ApplyTriggers(met[..m], configs).error.None?
    ensures ApplyTriggers(met, configs) == ApplyTrigger(met[m], ApplyTriggers(met[..m], configs).configs)
    decreases |met|
  {
    var p := ApplyTrigger(met[0], configs);
    if p.error.Some? {
      m := 0;
    } else {
      var j := PassStops(met[1..], p.configs);
      m := j + 1;
      assert met[..m][0] == met[0] && met[..m][1..] == met[1..][..j];
    }
  }

  const OPERATORS: seq<string> := ["cnv", "mtv", "odf", "lvm", "mce", "openshift-ai", "osc"]

  /** An OLM trigger on a configuration that has any resource attribute is a
      ValueError exactly for an unknown operator, and otherwise a TypeError
      exactly when one of these attributes is no number. */
  lemma OlmRaisesIff(c: Config, conditions: seq<Condition>, operator: string, isSno: bool)
    ensures var r := Handle(c, Olm(conditions, operator, isSno));
      && (r == Raised(ValueError) <==> operator !in OPERATORS && exists k | k in RESOURCE_KEYS :: k in c.attrs)
      && (r == Raised(TypeError) <==>
          operator in OPERATORS &&
          exists k | k in RESOURCE_KEYS :: k in c.attrs && !c.attrs[k].Int? && !c.attrs[k].Bool?)
  {
    KnownOperators(operator, isSno);
    OlmVariablesError(c.attrs, operator, isSno, RESOURCE_KEYS);
  }

  lemma KnownOperators(operator: string, isSno: bool)
    ensures forall k | k in RESOURCE_KEYS :: Requirement(operator, isSno, k).Some? <==> operator in OPERATORS
  {
    assert operator in OPERATORS <==> OperatorResources(operator, isSno).Some?;
  }

  lemma {:induction false} OlmVariablesError(attrs: map<string, Value>, operator: string, isSno: bool, keys: seq<string>)
    requires forall k | k in keys :: Requirement(operator, isSno, k).Some? <==> operator in OPERATORS
    ensures var r := OlmVariables(attrs, operator, isSno, keys);
      && (r == Raised(ValueError) <==> operator !in OPERATORS && exists k | k in keys :: k in attrs)
      && (r == Raised(TypeError) <==>
          operator in OPERATORS && exists k | k in keys :: k in attrs && !attrs[k].Int? && !attrs[k].Bool?)
  {
    if keys != [] {
      assert forall k :: k in keys <==> k == keys[0] || k in keys[1..];
      OlmVariablesError(attrs, operator, isSno, keys[1..]);
    }
  }

  // ---------- what a configuration holds afterwards ----------

  lemma {:induction false} CellAllSnoc(kind: Kind, user: bool, k: string, cell: Cell, met: seq<Trigger>, t: Trigger)
    ensures var r := CellAll(kind, user, k, cell, met);
      CellAll(kind, user, k, cell, met + [t]) == if r.Raised? then r else CellStep(kind, user, k, r.value, t)
    decreases |met|
  {
    if met == [] {
      assert [] + [t] == [t] && [t][1..] == [];
    } else {
      assert (met + [t])[0] == met[0] && (met + [t])[1..] == met[1..] + [t];
      var r := CellStep(kind, user, k, cell, met[0]);
      if r.Ok? {
        CellAllSnoc(kind, user, k, r.value, met[1..], t);
      }
    }
  }

  lemma {:induction false} LastOfKey(kind: Kind, values: seq<Setting>, k: string, i: nat)
    requires i < |values| && values[i].key == k && forall j | i < j < |values| :: values[j].key != k
    requires kind.Plain? || values[i].value.Truthy()
    ensures LastEffective(kind, values, k) == Some(values[i].value)
  {
    if i > 0 {
      assert forall j | 0 < j < |values| :: values[j] == values[1..][j - 1];
      LastOfKey(kind, values[1..], k, i - 1);
    } else {
      NoSetting(kind, values[1..], k);
    }
  }

  lemma {:induction false} NoSetting(kind: Kind, values: seq<Setting>, k: string)
    requires forall j | 0 <= j < |values| :: values[j].key != k
    ensures LastEffective(kind, values, k) == None
  {
    if values != [] { NoSetting(kind, values[1..], k); }
  }

  /** The last trigger has the last word: an attribute that neither the
      environment nor a test parameter set holds what the last setting of the
      last trigger says, unless DefaultVariables drop that. */
  lemma LastTriggerWins(c: Config, met: seq<Trigger>, conditions: seq<Condition>, values: seq<Setting>, i: nat)
    requires HandleAll(c, met).Ok?
    requires i < |values| && forall j | i < j < |values| :: values[j].key != values[i].key
    requires var k := values[i].key;
      && k in c.attrs && k !in c.userSet
      && (c.kind.Plain? && k in c.keysOrigin ==> c.keysOrigin[k] == TRIGGER)
      && (c.kind.Defaults? ==> values[i].value !in [NoneValue, Bool(false), Int(0), Str(""), List([])])
    ensures var k := values[i].key;
      var r := HandleAll(c, met + [Fixed(conditions, values)]);
      && r.Ok? && k in r.value.attrs && r.value.attrs[k] == values[i].value
      && (c.kind.Plain? ==> k in r.value.keysOrigin && r.value.keysOrigin[k] == TRIGGER)
  {
    var k := values[i].key;
    var t := Fixed(conditions, values);
    HandleAllCells(c, met);
    HandleAllCells(c, met + [t]);
    forall m | m in c.attrs {
      CellAllSnoc(c.kind, m in c.userSet, m, CellOf(c, m), met, t);
    }
    FreeAll(c.kind, false, k, CellOf(c, k), met);
    LastOfKey(c.kind, values, k, i);
    assert Touches(values, k);
    assert CellOf(HandleAll(c, met + [t]).value, k).value == values[i].value;
  }

  /** What the user set, in so many words, over any sequence of passes. */
  lemma UserSetIsKept(configs: seq<Config>, rounds: seq<seq<Trigger>>, i: nat, k: string)
    requires i < |configs| && k in configs[i].attrs
    requires var c := configs[i];
      k in c.userSet || (c.kind.Plain? && k in c.keysOrigin && c.keysOrigin[k] in {ENVIRONMENT, PARAMETERIZED})
    ensures var c := configs[i];
      && i < |Passes(configs, rounds)|
      && var d := Passes(configs, rounds)[i];
      && k in d.attrs && d.attrs[k] == c.attrs[k]
      && (k in c.userSet ==> k in d.userSet)
      && (k !in c.userSet ==> k in d.keysOrigin && d.keysOrigin[k] == c.keysOrigin[k])
  {
    UserValuesSurvive(configs, rounds);
    var c := configs[i];
    var d := Passes(configs, rounds)[i];
    assert Follows(c, d) && !Settable(c, k);
    assert ItemOrigin(d, k) == ItemOrigin(c, k);
  }

  /** The requirements of each operator for master and worker memory, vCPUs,
      disks, disk counts and the number of workers, in this order. Only MCE and
      OSC ask for something else on a single node. */
  function RequirementTable(operator: string, isSno: bool): seq<nat> {
    match (operator, isSno)
    case ("cnv", _) => [150, 360, 4, 2, 0, 0, 0, 0, 0]
    case ("mtv", _) => [1174, 1384, 5, 3, 0, 0, 0, 0, 0]
    case ("odf", _) => [24000, 24000, 12, 12, 10_000_000_000, 25_000_000_000, 1, 1, 4]
    case ("lvm", _) => [1200, 0, 1, 1, 0, 0, 1, 0, 0]
    case ("mce", false) => [17000, 17000, 8, 6, 0, 0, 0, 0, 0]
    case ("mce", true) => [33000, 0, 8, 0, 0, 0, 0, 0, 0]
    case ("openshift-ai", _) => [40960, 65536, 12, 20, 100_000_000_000, 100_000_000_000, 1, 2, 3]
    case ("osc", false) => [16384, 8192, 4, 2, 0, 0, 0, 0, 0]
    case ("osc", true) => [16384, 0, 8, 0, 0, 0, 0, 0, 0]
    case _ => []
  }

  const RESOURCE_NAMES: seq<string> := [
    "master_memory", "worker_memory", "master_vcpu", "worker_vcpu", "master_disk",
    "worker_disk", "master_disk_count", "worker_disk_count", "workers_count"
  ]

  lemma RequirementsTabled(operator: string, isSno: bool, i: nat)
    requires operator in OPERATORS && i < 9
    ensures |RequirementTable(operator, isSno)| == 9
    ensures Requirement(operator, isSno, RESOURCE_NAMES[i]) == Some(RequirementTable(operator, isSno)[i])
  {
  }

  /** A settable number or boolean after one operator: it is left alone above the
      tabled requirement, and has that added otherwise, unless DefaultVariables
      drop a sum of zero. */
  lemma OperatorRaises(c: Config, conditions: seq<Condition>, operator: string, isSno: bool, i: nat, n: int)
    requires operator in OPERATORS && i < 9
    requires Handle(c, Olm(conditions, operator, isSno)).Ok?
    requires var k := RESOURCE_NAMES[i];
      && k in c.attrs && k !in c.userSet
      && (c.kind.Plain? && k in c.keysOrigin ==> c.keysOrigin[k] == TRIGGER)
      && (c.attrs[k] == Int(n) || (c.attrs[k] == Bool(true) && n == 1) || (c.attrs[k] == Bool(false) && n == 0))
    ensures var k := RESOURCE_NAMES[i];
      var d := Handle(c, Olm(conditions, operator, isSno)).value;
      && |RequirementTable(operator, isSno)| == 9
      && var r := RequirementTable(operator, isSno)[i];
      k in d.attrs && d.attrs[k] == if n > r || (c.kind.Defaults? && n + r == 0) then c.attrs[k] else Int(n + r)
  {
    var k := RESOURCE_NAMES[i];
    var t := Olm(conditions, operator, isSno);
    RequirementsTabled(operator, isSno, i);
    HandleCells(c, t);
    FreeStep(c.kind, false, k, CellOf(c, k), t);
    assert CellOf(Handle(c, t).value, k).value == Handle(c, t).value.attrs[k];
  }

  /** An argument given to a configuration's constructor stands, but does not
      keep a trigger from overriding it; one left open comes from the defaults. */
  lemma GivenArgument(args: map<string, Value>, pool: Config, conditions: seq<Condition>, k: string, v: Value)
    requires k in args && k !in pool.userSet
    ensures var c := BuildConfig(args, pool);
      && k in c.attrs
      && (args[k] != NoneValue ==> c.attrs[k] == args[k])
      && (args[k] == NoneValue && k in pool.attrs ==> c.attrs[k] == pool.attrs[k])
      && var r := HandleAll(c, [Fixed(conditions, [Setting(k, v)])]);
      r.Ok? && k in r.value.attrs && r.value.attrs[k] == v
  {
    var c := BuildConfig(args, pool);
    LastTriggerWins(c, [], conditions, [Setting(k, v)], 0);
    assert [] + [Fixed(conditions, [Setting(k, v)])] == [Fixed(conditions, [Setting(k, v)])];
  }
}
