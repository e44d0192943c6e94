/** The configuration trigger engine: values that configurations take from
    triggers unless the user set them, plain triggers and OLM triggers, and one
    pass over several configurations. */
module Triggers {
  import opened Sequences
  import opened Text
  import opened Operators

  datatype Value = NoneValue | Bool(b: bool) | Int(n: int) | Str(s: string) | List(items: seq<Value>)
  {
    predicate Truthy() {
      match this
      case NoneValue => false
      case Bool(b) => b
      case Int(n) => n != 0
      case Str(s) => s != ""
      case List(items) => items != []
    }

    /** The number a value compares as; other values make `<=` raise. */
    function AsNumber(): Option<int> {
      match this
      case Int(n) => Some(n)
      case Bool(b) => Some(if b then 1 else 0)
      case _ => None
    }
  }

  datatype Origin = ENVIRONMENT | PARAMETERIZED | TRIGGER

  /** DefaultVariables keeps each attribute in an EnvVar; the other
      configurations keep plain attributes. */
  datatype Kind = Defaults | Plain

  datatype PyError = TypeError | ValueError

  datatype Result<+T> = Ok(value: T) | Raised(error: PyError)

  /** `userSet` are the variables whose user flag is set in the data pool of the
      configuration; DefaultVariables are their own data pool. */
  datatype Config = Config(kind: Kind, attrs: map<string, Value>, keysOrigin: map<string, Origin>, userSet: set<string>)

  datatype Setting = Setting(key: string, value: Value)

  /** What a condition does on one configuration; `NoAttribute` is the
      AttributeError the engine swallows. */
  datatype Verdict = Holds | DoesNotHold | NoAttribute

  type Condition = Config -> Verdict

  datatype Trigger =
    | Fixed(conditions: seq<Condition>, values: seq<Setting>)
    | Olm(conditions: seq<Condition>, operator: string, isSno: bool)

  // ---------- one configuration ----------

  function ItemOrigin(c: Config, item: string): Option<Origin> {
    if item in c.userSet then Some(ENVIRONMENT)
    else if c.kind.Plain? && item in c.keysOrigin then Some(c.keysOrigin[item])
    else None
  }

  predicate Settable(c: Config, item: string) {
    ItemOrigin(c, item) in {None, Some(TRIGGER)}
  }

  /** The value and the user flag of an EnvVar. */
  datatype Variable = Variable(value: Value, isUserSet: bool)

  /** EnvVar.copy takes a falsy value for no value and keeps the old one; the
      flag carries over. */
  function CopyVariable(v: Variable, value: Value): Variable {
    Variable(if value.Truthy() then value else v.value, v.isUserSet)
  }

  /** `_set`: on DefaultVariables the variable is replaced by a copy. */
  function Set(c: Config, key: string, value: Value): Config
    requires key in c.attrs
  {
    match c.kind
    case Plain => c.(attrs := c.attrs[key := value], keysOrigin := c.keysOrigin[key := TRIGGER])
    case Defaults =>
      var copy := CopyVariable(Variable(c.attrs[key], key in c.userSet), value);
      c.(attrs := c.attrs[key := copy.value],
         userSet := if copy.isUserSet then c.userSet + {key} else c.userSet - {key})
  }

  function HandleTrigger(c: Config, values: seq<Setting>): Config
    decreases |values|
  {
    if values == [] then c
    else if values[0].key in c.attrs && Settable(c, values[0].key) then
      HandleTrigger(Set(c, values[0].key, values[0].value), values[1..])
    else HandleTrigger(c, values[1..])
  }

  function ResourceParam(value: Value, key: string, operator: string, isSno: bool): Result<Value> {
    match Requirement(operator, isSno, key)
    case None => Raised(ValueError)
    case Some(r) =>
      match value.AsNumber()
      case None => Raised(TypeError)
      case Some(n) => Ok(if n <= r then Int(Raise(n, r)) else value)
  }

  /** The dictionary of an OLM trigger; attributes the configuration lacks are
      left out. */
  function OlmVariables(attrs: map<string, Value>, operator: string, isSno: bool, keys: seq<string>): Result<seq<Setting>> {
    if keys == [] then Ok([])
    else if keys[0] !in attrs then OlmVariables(attrs, operator, isSno, keys[1..])
    else match ResourceParam(attrs[keys[0]], keys[0], operator, isSno)
      case Raised(e) => Raised(e)
      case Ok(v) =>
        match OlmVariables(attrs, operator, isSno, keys[1..])
        case Raised(e) => Raised(e)
        case Ok(rest) => Ok([Setting(keys[0], v)] + rest)
  }

  function Handle(c: Config, t: Trigger): Result<Config> {
    match t
    case Fixed(_, values) => Ok(HandleTrigger(c, values))
    case Olm(_, operator, isSno) =>
      match OlmVariables(c.attrs, operator, isSno, RESOURCE_KEYS)
      case Raised(e) => Raised(e)
      case Ok(values) => Ok(HandleTrigger(c, values))
  }

  function HandleAll(c: Config, met: seq<Trigger>): Result<Config>
    decreases |met|
  {
    if met == [] then Ok(c)
    else match Handle(c, met[0])
      case Raised(e) => Raised(e)
      case Ok(d) => HandleAll(d, met[1..])
  }

  // ---------- one pass ----------

  predicate HoldsSomewhere(cond: Condition, configs: seq<Config>) {
    exists i | 0 <= i < |configs| :: cond(configs[i]) == Holds
  }

  /** Every condition holds on some configuration, not all on the same one. */
  predicate IsConditionMet(conditions: seq<Condition>, configs: seq<Config>) {
    conditions != [] && forall i | 0 <= i < |conditions| :: HoldsSomewhere(conditions[i], configs)
  }

  function MetTriggers(triggers: seq<Trigger>, configs: seq<Config>): seq<Trigger> {
    if triggers == [] then []
    else if IsConditionMet(triggers[0].conditions, configs) then [triggers[0]] + MetTriggers(triggers[1..], configs)
    else MetTriggers(triggers[1..], configs)
  }

  /** An error leaves what was handled before it in place. */
  datatype Pass = Pass(configs: seq<Config>, error: Option<PyError>)

  function ApplyTrigger(t: Trigger, configs: seq<Config>): (p: Pass)
    ensures |p.configs| == |configs|
  {
    if configs == [] then Pass([], None)
    else match Handle(configs[0], t)
      case Raised(e) => Pass(configs, Some(e))
      case Ok(c) =>
        var rest := ApplyTrigger(t, configs[1..]);
        Pass([c] + rest.configs, rest.error)
  }

  function ApplyTriggers(met: seq<Trigger>, configs: seq<Config>): (p: Pass)
    ensures |p.configs| == |configs|
    decreases |met|
  {
    if met == [] then Pass(configs, None)
    else
      var p := ApplyTrigger(met[0], configs);
      if p.error.Some? then p else ApplyTriggers(met[1..], p.configs)
  }

  function TriggerPass(configs: seq<Config>, triggers: seq<Trigger>): Pass {
    ApplyTriggers(MetTriggers(triggers, configs), configs)
  }

  // ---------- the trigger-outer, config-inner loops are a fold per config ----------

  lemma {:induction false} ApplyTriggerIsMap(t: Trigger, configs: seq<Config>)
    ensures var p := ApplyTrigger(t, configs);
      && (p.error.None? <==> forall i | 0 <= i < |configs| :: Handle(configs[i], t).Ok?)
      && (p.error.None? ==> forall i | 0 <= i < |configs| :: Handle(configs[i], t) == Ok(p.configs[i]))
  {
    if configs != [] {
      ApplyTriggerIsMap(t, configs[1..]);
      assert forall i | 0 < i < |configs| :: configs[i] == configs[1..][i - 1];
    }
  }

  /** A pass gives each configuration the left fold, in trigger order, of the
      triggers met in the initial state; it goes through exactly when each of
      these folds does. */
  lemma {:induction false} PassIsFold(met: seq<Trigger>, configs: seq<Config>)
    ensures var p := ApplyTriggers(met, configs);
      && (p.error.None? <==> forall i | 0 <= i < |configs| :: HandleAll(configs[i], met).Ok?)
      && (p.error.None? ==> forall i | 0 <= i < |configs| :: HandleAll(configs[i], met) == Ok(p.configs[i]))
    decreases |met|
  {
    if met != [] {
      var p := ApplyTrigger(met[0], configs);
      ApplyTriggerIsMap(met[0], configs);
      if p.error.None? {
        PassIsFold(met[1..], p.configs);
        assert forall i | 0 <= i < |configs| :: HandleAll(configs[i], met) == HandleAll(p.configs[i], met[1..]);
      } else {
        assert exists i | 0 <= i < |configs| :: HandleAll(configs[i], met).Raised?;
      }
    }
  }

  // ---------- one attribute ----------

  /** An attribute's value and the origin recorded for it. */
  datatype Cell = Cell(value: Value, origin: Option<Origin>)

  function CellOf(c: Config, k: string): Cell
    requires k in c.attrs
  {
    Cell(c.attrs[k], if k in c.keysOrigin then Some(c.keysOrigin[k]) else None)
  }

  predicate Free(kind: Kind, user: bool, cell: Cell) {
    !user && (kind.Plain? ==> cell.origin in {None, Some(TRIGGER)})
  }

  /** The last setting of `k` that takes effect. */
  function LastEffective(kind: Kind, values: seq<Setting>, k: string): Option<Value> {
    if values == [] then None
    else match LastEffective(kind, values[1..], k)
      case Some(v) => Some(v)
      case None =>
        if values[0].key == k && (kind.Plain? || values[0].value.Truthy()) then Some(values[0].value) else None
  }

  predicate Touches(values: seq<Setting>, k: string) {
    exists i | 0 <= i < |values| :: values[i].key == k
  }

  function CellSettings(kind: Kind, user: bool, values: seq<Setting>, k: string, cell: Cell): Cell {
    if !Free(kind, user, cell) then cell
    else
      var value := match LastEffective(kind, values, k) case Some(v) => v case None => cell.value;
      Cell(value, if kind.Plain? && Touches(values, k) then Some(TRIGGER) else cell.origin)
  }

  function CellStep(kind: Kind, user: bool, k: string, cell: Cell, t: Trigger): Result<Cell> {
    match t
    case Fixed(_, values) => Ok(CellSettings(kind, user, values, k, cell))
    case Olm(_, operator, isSno) =>
      if k !in RESOURCE_KEYS then Ok(cell)
      else match ResourceParam(cell.value, k, operator, isSno)
        case Raised(e) => Raised(e)
        case Ok(v) => Ok(CellSettings(kind, user, [Setting(k, v)], k, cell))
  }

  function CellAll(kind: Kind, user: bool, k: string, cell: Cell, met: seq<Trigger>): Result<Cell>
    decreases |met|
  {
    if met == [] then Ok(cell)
    else match CellStep(kind, user, k, cell, met[0])
      case Raised(e) => Raised(e)
      case Ok(d) => CellAll(kind, user, k, d, met[1..])
  }

  /** What handling never changes. */
  ghost predicate SameFrame(c: Config, d: Config) {
    && d.kind == c.kind && d.userSet == c.userSet && d.attrs.Keys == c.attrs.Keys
    && (forall k | k !in c.attrs :: k in d.keysOrigin <==> k in c.keysOrigin)
    && (forall k | k !in c.attrs && k in c.keysOrigin :: d.keysOrigin[k] == c.keysOrigin[k])
  }

  lemma SameConfig(c: Config, d: Config)
    requires SameFrame(c, d) && forall k | k in c.attrs :: CellOf(c, k) == CellOf(d, k)
    ensures c == d
  {
    assert forall k | k in c.attrs :: c.attrs[k] == CellOf(c, k).value && d.attrs[k] == CellOf(d, k).value;
    assert c.attrs == d.attrs;
    forall k
      ensures k in c.keysOrigin <==> k in d.keysOrigin
      ensures k in c.keysOrigin ==> c.keysOrigin[k] == d.keysOrigin[k]
    {
      if k in c.attrs {
        assert CellOf(c, k).origin == CellOf(d, k).origin;
      }
    }
    assert c.keysOrigin == d.keysOrigin;
  }

  lemma SetCells(c: Config, key: string, value: Value, k: string)
    requires key in c.attrs && Settable(c, key) && k in c.attrs
    ensures SameFrame(c, Set(c, key, value))
    ensures CellOf(Set(c, key, value), k) ==
      CellSettings(c.kind, k in c.userSet, [Setting(key, value)], k, CellOf(c, k))
  {
    var s := [Setting(key, value)];
    assert s[0].key == key && LastEffective(c.kind, s[1..], k).None?;
    assert Touches(s, k) <==> key == k;
  }

  lemma SettingsCons(kind: Kind, user: bool, values: seq<Setting>, k: string, cell: Cell)
    requires values != []
    ensures CellSettings(kind, user, values, k, cell) ==
      CellSettings(kind, user, values[1..], k, CellSettings(kind, user, [values[0]], k, cell))
    ensures values[0].key != k ==> CellSettings(kind, user, [values[0]], k, cell) == cell
  {
    var s := [values[0]];
    assert LastEffective(kind, s[1..], k).None?;
    assert Touches(s, k) <==> s[0].key == k;
    assert Touches(values, k) <==> values[0].key == k || Touches(values[1..], k) by {
      if Touches(values, k) {
        var i :| 0 <= i < |values| && values[i].key == k;
        assert i > 0 ==> values[1..][i - 1].key == k;
      }
      if Touches(values[1..], k) {
        var i :| 0 <= i < |values[1..]| && values[1..][i].key == k;
        assert values[i + 1].key == k;
      }
    }
  }

  /** Settings act on each attribute separately. */
  lemma {:induction false} HandleTriggerCells(c: Config, values: seq<Setting>)
    ensures SameFrame(c, HandleTrigger(c, values))
    ensures forall k | k in c.attrs ::
      CellOf(HandleTrigger(c, values), k) == CellSettings(c.kind, k in c.userSet, values, k, CellOf(c, k))
    decreases |values|
  {
    if values != [] {
      var s := values[0];
      var d := if s.key in c.attrs && Settable(c, s.key) then Set(c, s.key, s.value) else c;
      HandleTriggerCells(d, values[1..]);
      forall k | k in c.attrs
        ensures CellOf(d, k) == CellSettings(c.kind, k in c.userSet, [s], k, CellOf(c, k))
        ensures CellOf(HandleTrigger(c, values), k) == CellSettings(c.kind, k in c.userSet, values, k, CellOf(c, k))
      {
        SettingsCons(c.kind, k in c.userSet, values, k, CellOf(c, k));
        if s.key in c.attrs && Settable(c, s.key) {
          SetCells(c, s.key, s.value, k);
        }
      }
    }
  }

  /** Each resource attribute is computed from its own value alone. */
  lemma {:induction false} OlmVariablesCells(c: Config, operator: string, isSno: bool, keys: seq<string>)
    requires Distinct(keys)
    ensures var r := OlmVariables(c.attrs, operator, isSno, keys);
      && (r.Ok? <==> forall k | k in keys && k in c.attrs :: ResourceParam(c.attrs[k], k, operator, isSno).Ok?)
      && (r.Ok? ==> forall k | k in c.attrs && k !in keys :: !Touches(r.value, k))
      && (r.Ok? ==> forall k, user, cell | k in c.attrs && k in keys ::
          CellSettings(c.kind, user, r.value, k, cell) ==
          CellSettings(c.kind, user, [Setting(k, ResourceParam(c.attrs[k], k, operator, isSno).value)], k, cell))
  {
    if keys != [] {
      var rest := OlmVariables(c.attrs, operator, isSno, keys[1..]);
      OlmVariablesCells(c, operator, isSno, keys[1..]);
      assert forall k :: k in keys <==> k == keys[0] || k in keys[1..];
      assert keys[0] !in keys[1..];
      if keys[0] in c.attrs && ResourceParam(c.attrs[keys[0]], keys[0], operator, isSno).Ok? && rest.Ok? {
        var v := ResourceParam(c.attrs[keys[0]], keys[0], operator, isSno).value;
        var values := [Setting(keys[0], v)] + rest.value;
        assert values[1..] == rest.value;
        forall k, user, cell | k in c.attrs && k in keys
          ensures CellSettings(c.kind, user, values, k, cell) ==
            CellSettings(c.kind, user, [Setting(k, ResourceParam(c.attrs[k], k, operator, isSno).value)], k, cell)
        {
          SettingsCons(c.kind, user, values, k, cell);
          if k == keys[0] {
            Untouched(c.kind, user, rest.value, k, CellSettings(c.kind, user, [values[0]], k, cell));
          }
        }
        forall k | k in c.attrs && k !in keys
          ensures !Touches(values, k)
        {
          assert forall i | 0 < i < |values| :: values[i] == rest.value[i - 1];
        }
      }
    }
  }

  lemma {:induction false} Untouched(kind: Kind, user: bool, values: seq<Setting>, k: string, cell: Cell)
    requires !Touches(values, k)
    ensures CellSettings(kind, user, values, k, cell) == cell
  {
    if values != [] {
      assert values[0].key != k;
      assert forall i | 0 <= i < |values[1..]| :: values[1..][i] == values[i + 1];
      Untouched(kind, user, values[1..], k, cell);
      SettingsCons(kind, user, values, k, cell);
    }
  }

  lemma ResourceKeysDistinct()
    ensures Distinct(RESOURCE_KEYS)
  {
  }

  lemma HandleCells(c: Config, t: Trigger)
    ensures Handle(c, t).Ok? <==>
      forall k | k in c.attrs :: CellStep(c.kind, k in c.userSet, k, CellOf(c, k), t).Ok?
    ensures Handle(c, t).Ok? ==>
      && SameFrame(c, Handle(c, t).value)
      && forall k | k in c.attrs ::
        CellStep(c.kind, k in c.userSet, k, CellOf(c, k), t) == Ok(CellOf(Handle(c, t).value, k))
  {
    match t
    case Fixed(_, values) => HandleTriggerCells(c, values);
    case Olm(_, operator, isSno) =>
      ResourceKeysDistinct();
      var r := OlmVariables(c.attrs, operator, isSno, RESOURCE_KEYS);
      OlmVariablesCells(c, operator, isSno, RESOURCE_KEYS);
      forall k | k in c.attrs
        ensures CellStep(c.kind, k in c.userSet, k, CellOf(c, k), t).Ok? <==>
          (k in RESOURCE_KEYS ==> ResourceParam(c.attrs[k], k, operator, isSno).Ok?)
      {
      }
      if r.Ok? {
        HandleTriggerCells(c, r.value);
        forall k | k in c.attrs
          ensures CellStep(c.kind, k in c.userSet, k, CellOf(c, k), t) == Ok(CellOf(Handle(c, t).value, k))
        {
          if k !in RESOURCE_KEYS {
            Untouched(c.kind, k in c.userSet, r.value, k, CellOf(c, k));
          }
        }
      }
  }

  /** A whole pass acts on each attribute separately. */
  lemma {:induction false} HandleAllCells(c: Config, met: seq<Trigger>)
    ensures HandleAll(c, met).Ok? <==>
      forall k | k in c.attrs :: CellAll(c.kind, k in c.userSet, k, CellOf(c, k), met).Ok?
    ensures HandleAll(c, met).Ok? ==>
      && SameFrame(c, HandleAll(c, met).value)
      && forall k | k in c.attrs ::
        CellAll(c.kind, k in c.userSet, k, CellOf(c, k), met) == Ok(CellOf(HandleAll(c, met).value, k))
    decreases |met|
  {
    if met != [] {
      HandleCells(c, met[0]);
      if Handle(c, met[0]).Ok? {
        var d := Handle(c, met[0]).value;
        HandleAllCells(d, met[1..]);
        assert forall k | k in c.attrs ::
          CellAll(c.kind, k in c.userSet, k, CellOf(c, k), met) == CellAll(d.kind, k in d.userSet, k, CellOf(d, k), met[1..]);
      }
    }
  }
}
