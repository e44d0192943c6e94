/** What trigger passes keep: the user's values, and themselves when repeated. */
module TriggerProperties {
  import opened Text
  import opened Operators
  import opened Triggers

  // ---------- the user's values over whole runs ----------

  /** `d` came from `c` by handling triggers: same attributes, what the user set
      is as it was, and what was settable still is. */
  ghost predicate Follows(c: Config, d: Config) {
    && SameFrame(c, d)
    && forall k | k in c.attrs ::
      && (!Settable(c, k) ==> d.attrs[k] == c.attrs[k] && ItemOrigin(d, k) == ItemOrigin(c, k))
      && (Settable(c, k) ==> Settable(d, k))
  }

  lemma HandleFollows(c: Config, t: Trigger)
    requires Handle(c, t).Ok?
    ensures Follows(c, Handle(c, t).value)
  {
    HandleCells(c, t);
    var d := Handle(c, t).value;
    forall k | k in c.attrs
      ensures !Settable(c, k) ==> d.attrs[k] == c.attrs[k] && ItemOrigin(d, k) == ItemOrigin(c, k)
      ensures Settable(c, k) ==> Settable(d, k)
    {
      var cell := CellOf(c, k);
      var after := CellOf(d, k);
      assert Settable(c, k) <==> Free(c.kind, k in c.userSet, cell);
      assert Settable(d, k) <==> Free(c.kind, k in c.userSet, after);
      assert CellStep(c.kind, k in c.userSet, k, cell, t) == Ok(after);
    }
  }

  lemma FollowsTransitive(c: Config, d: Config, e: Config)
    requires Follows(c, d) && Follows(d, e)
    ensures Follows(c, e)
  {
  }

  ghost predicate AllFollow(cs: seq<Config>, ds: seq<Config>) {
    |cs| == |ds| && forall i | 0 <= i < |cs| :: Follows(cs[i], ds[i])
  }

  lemma {:induction false} ApplyTriggerFollows(t: Trigger, configs: seq<Config>)
    ensures AllFollow(configs, ApplyTrigger(t, configs).configs)
  {
    if configs != [] {
      ApplyTriggerFollows(t, configs[1..]);
      if Handle(configs[0], t).Ok? {
        HandleFollows(configs[0], t);
      }
    }
  }

  lemma AllFollowTransitive(cs: seq<Config>, ds: seq<Config>, es: seq<Config>)
    requires AllFollow(cs, ds) && AllFollow(ds, es)
    ensures AllFollow(cs, es)
  {
    forall i | 0 <= i < |cs| {
      FollowsTransitive(cs[i], ds[i], es[i]);
    }
  }

  lemma {:induction false} ApplyTriggersFollows(met: seq<Trigger>, configs: seq<Config>)
    ensures AllFollow(configs, ApplyTriggers(met, configs).configs)
    decreases |met|
  {
    if met != [] {
      var p := ApplyTrigger(met[0], configs);
      ApplyTriggerFollows(met[0], configs);
      if p.error.None? {
        ApplyTriggersFollows(met[1..], p.configs);
        AllFollowTransitive(configs, p.configs, ApplyTriggers(met, configs).configs);
      }
    }
  }

  /** Passes one after the other, each deciding its met triggers afresh; a pass
      that raised leaves what it had done. */
  function Passes(configs: seq<Config>, rounds: seq<seq<Trigger>>): seq<Config>
    decreases |rounds|
  {
    if rounds == [] then configs else Passes(TriggerPass(configs, rounds[0]).configs, rounds[1..])
  }

  /** Over any sequence of passes, failed ones included, an attribute set by the
      environment or by a test parameter keeps its value and its origin, no
      attribute appears or disappears, and whatever a trigger may set stays
      settable. */
  lemma {:induction false} UserValuesSurvive(configs: seq<Config>, rounds: seq<seq<Trigger>>)
    ensures AllFollow(configs, Passes(configs, rounds))
    decreases |rounds|
  {
    if rounds != [] {
      var next := TriggerPass(configs, rounds[0]).configs;
      ApplyTriggersFollows(MetTriggers(rounds[0], configs), configs);
      UserValuesSurvive(next, rounds[1..]);
      AllFollowTransitive(configs, next, Passes(configs, rounds));
    }
  }

  /** A settable attribute takes the value of a plain trigger and counts as set
      by a trigger; on DefaultVariables a falsy value is dropped instead. */
  lemma SettingTakesEffectIff(c: Config, k: string, v: Value, conditions: seq<Condition>)
    requires k in c.attrs && Settable(c, k)
    ensures var d := Handle(c, Fixed(conditions, [Setting(k, v)])).value;
      && k in d.attrs
      && (d.attrs[k] == v <==>
          || c.kind.Plain? || c.attrs[k] == v
          || !(v == NoneValue || v == Bool(false) || v == Int(0) || v == Str("") || v == List([])))
      && (c.kind.Plain? ==> ItemOrigin(d, k) == Some(TRIGGER))
      && Settable(d, k)
  {
    var values := [Setting(k, v)];
    assert HandleTrigger(c, values) == HandleTrigger(Set(c, k, v), values[1..]) == Set(c, k, v);
  }

  // ---------- repeating a pass ----------

  /** Requirements of the OLM triggers for attribute `k`, in order. */
  function Requirements(met: seq<Trigger>, k: string): seq<nat> {
    if met == [] then []
    else
      var rest := Requirements(met[1..], k);
      if met[0].Olm? then
        match Requirement(met[0].operator, met[0].isSno, k)
        case Some(r) => [r] + rest
        case None => rest
      else rest
  }

  /** Some plain trigger sets `k` to a value that is not dropped. */
  predicate SetByPlain(kind: Kind, met: seq<Trigger>, k: string) {
    met != [] && (
      || SetByPlain(kind, met[1..], k)
      || (met[0].Fixed? && LastEffective(kind, met[0].values, k).Some?))
  }

  predicate Amount(v: Value) {
    v.Int? && v.n >= 0
  }

  /** Plain triggers set resource attributes to amounts. */
  predicate SetsAmounts(met: seq<Trigger>) {
    forall i, j | 0 <= i < |met| && met[i].Fixed? && 0 <= j < |met[i].values| ::
      met[i].values[j].key in RESOURCE_KEYS ==> Amount(met[i].values[j].value)
  }

  predicate SetsAmount(t: Trigger, k: string) {
    t.Fixed? ==> forall j | 0 <= j < |t.values| :: t.values[j].key == k ==> Amount(t.values[j].value)
  }

  lemma {:induction false} LastEffectiveIs(kind: Kind, values: seq<Setting>, k: string)
    ensures LastEffective(kind, values, k).Some? ==>
      exists i | 0 <= i < |values| :: values[i] == Setting(k, LastEffective(kind, values, k).value)
    ensures LastEffective(kind, values, k).Some? && kind.Defaults? ==> LastEffective(kind, values, k).value.Truthy()
    ensures kind.Plain? ==> (LastEffective(kind, values, k).Some? <==> Touches(values, k))
    ensures (forall i | 0 <= i < |values| :: values[i].key == k ==> values[i].value.Truthy()) ==>
      LastEffective(Defaults, values, k) == LastEffective(Plain, values, k)
  {
    if values != [] {
      var rest := values[1..];
      LastEffectiveIs(kind, rest, k);
      assert forall i | 0 <= i < |rest| :: rest[i] == values[i + 1];
      if Touches(values, k) {
        var i :| 0 <= i < |values| && values[i].key == k;
        assert i > 0 ==> rest[i - 1].key == k;
      }
    }
  }

  /** One requirement on a number: DefaultVariables drop a sum of zero. */
  function RaiseIn(kind: Kind, value: int, r: nat): int {
    if value <= r && !(kind.Defaults? && value + r == 0) then value + r else value
  }

  function RaiseAllIn(kind: Kind, value: int, requirements: seq<nat>): int
    decreases |requirements|
  {
    if requirements == [] then value else RaiseAllIn(kind, RaiseIn(kind, value, requirements[0]), requirements[1..])
  }

  function RaiseValue(kind: Kind, value: Value, r: nat): (v: Value)
    requires value.AsNumber().Some?
    ensures v.AsNumber() == Some(RaiseIn(kind, value.AsNumber().value, r))
  {
    var n := value.AsNumber().value;
    if n <= r && !(kind.Defaults? && n + r == 0) then Int(n + r) else value
  }

  /** No requirement moves the number any more. */
  predicate AtRest(kind: Kind, value: int, requirements: seq<nat>) {
    forall r | r in requirements :: RaiseIn(kind, value, r) == value
  }

  lemma {:induction false} RaiseAllInGrows(kind: Kind, value: int, requirements: seq<nat>)
    ensures value <= RaiseAllIn(kind, value, requirements)
    decreases |requirements|
  {
    if requirements != [] {
      RaiseAllInGrows(kind, RaiseIn(kind, value, requirements[0]), requirements[1..]);
    }
  }

  lemma {:induction false} AtRestIff(kind: Kind, value: int, requirements: seq<nat>)
    ensures RaiseAllIn(kind, value, requirements) == value <==> AtRest(kind, value, requirements)
    decreases |requirements|
  {
    if requirements != [] {
      var next := RaiseIn(kind, value, requirements[0]);
      Members(requirements);
      RaiseAllInGrows(kind, next, requirements[1..]);
      AtRestIff(kind, next, requirements[1..]);
    }
  }

  /** From 0 on nothing is dropped that would have changed the number. */
  lemma {:induction false} RaiseAllInIsRaiseAll(kind: Kind, value: int, requirements: seq<nat>)
    requires value >= 0
    ensures RaiseAllIn(kind, value, requirements) == RaiseAll(value, requirements)
    decreases |requirements|
  {
    if requirements != [] {
      RaiseAllInIsRaiseAll(kind, Raise(value, requirements[0]), requirements[1..]);
    }
  }

  /** The cell after one trigger, for a settable attribute. */
  lemma FreeStep(kind: Kind, user: bool, k: string, cell: Cell, t: Trigger)
    requires Free(kind, user, cell) && CellStep(kind, user, k, cell, t).Ok?
    ensures var d := CellStep(kind, user, k, cell, t).value;
      && Free(kind, user, d)
      && (t.Fixed? ==> d.value == match LastEffective(kind, t.values, k) case Some(v) => v case None => cell.value)
      && (t.Olm? && k !in RESOURCE_KEYS ==> d == cell)
      && (t.Olm? && k in RESOURCE_KEYS ==>
          && Requirement(t.operator, t.isSno, k).Some? && cell.value.AsNumber().Some?
          && d.value == RaiseValue(kind, cell.value, Requirement(t.operator, t.isSno, k).value))
  {
    if t.Olm? && k in RESOURCE_KEYS {
      var s := [Setting(k, ResourceParam(cell.value, k, t.operator, t.isSno).value)];
      assert LastEffective(kind, s[1..], k).None?;
    }
  }

  lemma {:induction false} FreeAll(kind: Kind, user: bool, k: string, cell: Cell, met: seq<Trigger>)
    requires Free(kind, user, cell) && CellAll(kind, user, k, cell, met).Ok?
    ensures Free(kind, user, CellAll(kind, user, k, cell, met).value)
    decreases |met|
  {
    if met != [] {
      FreeStep(kind, user, k, cell, met[0]);
      FreeAll(kind, user, k, CellStep(kind, user, k, cell, met[0]).value, met[1..]);
    }
  }

  predicate TouchedBy(met: seq<Trigger>, k: string) {
    exists i | 0 <= i < |met| :: if met[i].Fixed? then Touches(met[i].values, k) else k in RESOURCE_KEYS
  }

  lemma {:induction false} OriginAfter(kind: Kind, user: bool, k: string, cell: Cell, met: seq<Trigger>)
    requires Free(kind, user, cell) && CellAll(kind, user, k, cell, met).Ok?
    ensures CellAll(kind, user, k, cell, met).value.origin ==
      if kind.Plain? && TouchedBy(met, k) then Some(TRIGGER) else cell.origin
    decreases |met|
  {
    if met != [] {
      var d := CellStep(kind, user, k, cell, met[0]).value;
      FreeStep(kind, user, k, cell, met[0]);
      OriginAfter(kind, user, k, d, met[1..]);
      TouchedFirst(met, k);
      if met[0].Olm? && k in RESOURCE_KEYS {
        var s := [Setting(k, ResourceParam(cell.value, k, met[0].operator, met[0].isSno).value)];
        assert s[0].key == k && Touches(s, k);
      }
    }
  }

  lemma TouchedFirst(met: seq<Trigger>, k: string)
    requires met != []
    ensures TouchedBy(met, k) <==>
      (if met[0].Fixed? then Touches(met[0].values, k) else k in RESOURCE_KEYS) || TouchedBy(met[1..], k)
  {
    var rest := met[1..];
    if TouchedBy(met, k) {
      var i :| 0 <= i < |met| && if met[i].Fixed? then Touches(met[i].values, k) else k in RESOURCE_KEYS;
      if i > 0 { assert rest[i - 1] == met[i]; }
    }
    if TouchedBy(rest, k) {
      var i :| 0 <= i < |rest| && if rest[i].Fixed? then Touches(rest[i].values, k) else k in RESOURCE_KEYS;
      assert met[i + 1] == rest[i];
    }
  }

  lemma SetsAmountsTail(met: seq<Trigger>)
    requires met != [] && SetsAmounts(met)
    ensures SetsAmounts(met[1..])
    ensures forall k | k in RESOURCE_KEYS :: SetsAmount(met[0], k)
  {
    assert forall i | 0 <= i < |met[1..]| :: met[1..][i] == met[i + 1];
  }

  /** A resource attribute that no plain trigger sets is raised by each
      requirement in turn. */
  lemma {:induction false} RaisedOnly(kind: Kind, user: bool, k: string, cell: Cell, met: seq<Trigger>)
    requires Free(kind, user, cell) && CellAll(kind, user, k, cell, met).Ok?
    requires k in RESOURCE_KEYS && !SetByPlain(kind, met, k) && cell.value.AsNumber().Some?
    ensures var d := CellAll(kind, user, k, cell, met).value;
      d.value.AsNumber() == Some(RaiseAllIn(kind, cell.value.AsNumber().value, Requirements(met, k)))
    ensures cell.value.Int? ==> CellAll(kind, user, k, cell, met).value.value.Int?
    decreases |met|
  {
    if met != [] {
      FreeStep(kind, user, k, cell, met[0]);
      RaisedOnly(kind, user, k, CellStep(kind, user, k, cell, met[0]).value, met[1..]);
    }
  }

  /** A resource attribute some requirement was checked against holds a number,
      and on other configurations than DefaultVariables not a False. */
  lemma {:induction false} NumberIfRequired(kind: Kind, user: bool, k: string, cell: Cell, met: seq<Trigger>)
    requires Free(kind, user, cell) && CellAll(kind, user, k, cell, met).Ok?
    requires k in RESOURCE_KEYS && !SetByPlain(kind, met, k)
    ensures Requirements(met, k) != [] ==> cell.value.AsNumber().Some?
    ensures kind.Plain? && (Requirements(met, k) != [] || cell.value != Bool(false)) ==>
      CellAll(kind, user, k, cell, met).value.value != Bool(false)
    decreases |met|
  {
    if met != [] {
      FreeStep(kind, user, k, cell, met[0]);
      NumberIfRequired(kind, user, k, CellStep(kind, user, k, cell, met[0]).value, met[1..]);
    }
  }

  /** A number at rest is left alone, text and all. */
  lemma {:induction false} RestingStays(kind: Kind, user: bool, k: string, cell: Cell, met: seq<Trigger>)
    requires Free(kind, user, cell) && CellAll(kind, user, k, cell, met).Ok?
    requires k in RESOURCE_KEYS && !SetByPlain(kind, met, k) && cell.value.AsNumber().Some?
    requires AtRest(kind, cell.value.AsNumber().value, Requirements(met, k))
    requires kind.Plain? ==> cell.value != Bool(false)
    ensures CellAll(kind, user, k, cell, met).value.value == cell.value
    decreases |met|
  {
    if met != [] {
      FreeStep(kind, user, k, cell, met[0]);
      if met[0].Olm? {
        Members(Requirements(met, k));
        assert Requirements(met, k)[1..] == Requirements(met[1..], k);
      }
      RestingStays(kind, user, k, CellStep(kind, user, k, cell, met[0]).value, met[1..]);
    }
  }

  /** Without a requirement or a plain setting the value stays. */
  lemma {:induction false} NothingSet(kind: Kind, user: bool, k: string, cell: Cell, met: seq<Trigger>)
    requires Free(kind, user, cell) && CellAll(kind, user, k, cell, met).Ok?
    requires !SetByPlain(kind, met, k) && (k in RESOURCE_KEYS ==> Requirements(met, k) == [])
    ensures CellAll(kind, user, k, cell, met).value.value == cell.value
    decreases |met|
  {
    if met != [] {
      FreeStep(kind, user, k, cell, met[0]);
      NothingSet(kind, user, k, CellStep(kind, user, k, cell, met[0]).value, met[1..]);
    }
  }

  /** Every plain setting of `k` is truthy, so no kind of configuration drops
      it. */
  predicate AllTruthy(met: seq<Trigger>, k: string) {
    forall i, j | 0 <= i < |met| && met[i].Fixed? && 0 <= j < |met[i].values| ::
      met[i].values[j].key == k ==> met[i].values[j].value.Truthy()
  }

  lemma AllTruthyFirst(met: seq<Trigger>, k: string)
    requires met != [] && AllTruthy(met, k)
    ensures AllTruthy(met[1..], k)
    ensures met[0].Fixed? ==> LastEffective(Defaults, met[0].values, k) == LastEffective(Plain, met[0].values, k)
  {
    assert forall i | 0 <= i < |met[1..]| :: met[1..][i] == met[i + 1];
    if met[0].Fixed? { LastEffectiveIs(Plain, met[0].values, k); }
  }

  /** Two runs over the same triggers end on the same value when they start on
      the same one or a plain trigger sets it in between. */
  lemma {:induction false} ValuesAgree(ka: Kind, kb: Kind, user: bool, k: string, a: Cell, b: Cell, met: seq<Trigger>)
    requires SetsAmounts(met) && (ka == kb || AllTruthy(met, k))
    requires Free(ka, user, a) && Free(kb, user, b)
    requires CellAll(ka, user, k, a, met).Ok? && CellAll(kb, user, k, b, met).Ok?
    requires SetByPlain(ka, met, k) || (a.value == b.value && (ka == kb || k !in RESOURCE_KEYS || Amount(a.value)))
    ensures CellAll(ka, user, k, a, met).value.value == CellAll(kb, user, k, b, met).value.value
    decreases |met|
  {
    if met != [] {
      var t := met[0];
      FreeStep(ka, user, k, a, t);
      FreeStep(kb, user, k, b, t);
      SetsAmountsTail(met);
      if ka != kb { AllTruthyFirst(met, k); }
      if t.Fixed? { LastEffectiveIs(ka, t.values, k); }
      ValuesAgree(ka, kb, user, k, CellStep(ka, user, k, a, t).value, CellStep(kb, user, k, b, t).value, met[1..]);
    }
  }

  /** A pass that went through leaves a resource attribute on a number if any
      OLM trigger looked at it, so the pass goes through again. */
  lemma {:induction false} GoesThrough(kind: Kind, user: bool, k: string, cell: Cell, other: Cell, met: seq<Trigger>)
    requires SetsAmounts(met) && CellAll(kind, user, k, cell, met).Ok?
    requires k in RESOURCE_KEYS && (exists i | 0 <= i < |met| :: met[i].Olm?) ==> other.value.AsNumber().Some?
    ensures CellAll(kind, user, k, other, met).Ok?
    decreases |met|
  {
    if met != [] {
      var t := met[0];
      SetsAmountsTail(met);
      assert (exists i | 0 <= i < |met[1..]| :: met[1..][i].Olm?) ==> exists i | 0 <= i < |met| :: met[i].Olm?;
      if k in RESOURCE_KEYS { NumberStays(kind, user, k, other, t); }
      GoesThrough(kind, user, k, CellStep(kind, user, k, cell, t).value, CellStep(kind, user, k, other, t).value, met[1..]);
    }
  }

  lemma NumberStays(kind: Kind, user: bool, k: string, cell: Cell, t: Trigger)
    requires CellStep(kind, user, k, cell, t).Ok? && SetsAmount(t, k)
    ensures cell.value.AsNumber().Some? ==> CellStep(kind, user, k, cell, t).value.value.AsNumber().Some?
  {
    if t.Fixed? {
      LastEffectiveIs(kind, t.values, k);
    } else if k in RESOURCE_KEYS {
      var s := [Setting(k, ResourceParam(cell.value, k, t.operator, t.isSno).value)];
      LastEffectiveIs(kind, s, k);
    }
  }

  lemma {:induction false} NumberAtEnd(kind: Kind, user: bool, k: string, cell: Cell, met: seq<Trigger>)
    requires SetsAmounts(met) && CellAll(kind, user, k, cell, met).Ok? && k in RESOURCE_KEYS
    ensures cell.value.AsNumber().Some? || (exists i | 0 <= i < |met| :: met[i].Olm?) ==>
      CellAll(kind, user, k, cell, met).value.value.AsNumber().Some?
    decreases |met|
  {
    if met != [] {
      SetsAmountsTail(met);
      NumberStays(kind, user, k, cell, met[0]);
      NumberAtEnd(kind, user, k, CellStep(kind, user, k, cell, met[0]).value, met[1..]);
      assert (exists i | 0 <= i < |met| :: met[i].Olm?) ==>
        met[0].Olm? || exists i | 0 <= i < |met[1..]| :: met[1..][i].Olm?;
    }
  }

  /** A resource attribute of `c` whose value only the OLM triggers compute. */
  predicate RaisedAttr(c: Config, met: seq<Trigger>, k: string) {
    && k in c.attrs && k in RESOURCE_KEYS && Settable(c, k)
    && !SetByPlain(c.kind, met, k) && Requirements(met, k) != []
  }

  datatype Climbed = Climbed(sum: int, taken: nat)

  /** The first partial sum of a number and the requirements, in order, that is
      no longer negative, or the last one if all are, and how many requirements
      it takes. DefaultVariables drop a sum of zero and leave its requirement
      out. */
  function Climb(kind: Kind, value: int, requirements: seq<nat>): (c: Climbed)
    ensures c.taken <= |requirements|
    decreases |requirements|
  {
    if value >= 0 || requirements == [] then Climbed(value, 0)
    else
      var sum := value + requirements[0];
      var c := Climb(kind, if kind.Defaults? && sum == 0 then value else sum, requirements[1..]);
      Climbed(c.sum, c.taken + 1)
  }

  lemma ClimbStep(kind: Kind, value: int, requirements: seq<nat>)
    requires value < 0 && requirements != []
    ensures Climb(kind, value, requirements) ==
      var c := Climb(kind, RaiseIn(kind, value, requirements[0]), requirements[1..]); Climbed(c.sum, c.taken + 1)
  {
  }

  /** Below zero each requirement is added; from there on the raising starts at
      the sum. */
  lemma {:induction false} RaisedFromClimb(kind: Kind, value: int, requirements: seq<nat>)
    ensures var c := Climb(kind, value, requirements);
      && RaiseAllIn(kind, value, requirements) == RaiseAllIn(kind, c.sum, requirements[c.taken..])
      && (c.sum < 0 ==> c.taken == |requirements|)
    decreases |requirements|
  {
    var c := Climb(kind, value, requirements);
    if c.taken == 0 {
      assert requirements[0..] == requirements;
    } else {
      ClimbStep(kind, value, requirements);
      RaisedFromClimb(kind, RaiseIn(kind, value, requirements[0]), requirements[1..]);
      assert requirements[1..][c.taken - 1..] == requirements[c.taken..];
    }
  }

  /** The sum is below the requirement that took it over zero. */
  lemma {:induction false} ClimbedBelow(kind: Kind, value: int, requirements: seq<nat>)
    ensures var c := Climb(kind, value, requirements);
      c.sum >= 0 && c.taken > 0 ==> c.sum < Largest(requirements[..c.taken])
    decreases |requirements|
  {
    var c := Climb(kind, value, requirements);
    if c.taken > 0 {
      ClimbStep(kind, value, requirements);
      ClimbedBelow(kind, RaiseIn(kind, value, requirements[0]), requirements[1..]);
      var before := requirements[..c.taken];
      assert before[0] == requirements[0] && before[1..] == requirements[1..][..c.taken - 1];
    }
  }

  /** A value that two passes, the first by a configuration of kind `first` and
      the second by one of kind `second`, leave where the first one put it:
      any positive number; 0 when the first positive requirement, if any, is
      matched by a later one; and a negative number when its sum stays negative
      and nothing is required that would still be added, or when the sum climbs
      to a number that repeats over the requirements after it and is raised by
      them above all those before. */
  predicate Repeatable(first: Kind, second: Kind, value: Value, requirements: seq<nat>) {
    match value.AsNumber()
    case None => false
    case Some(n) =>
      var c := Climb(first, n, requirements);
      var before, after := requirements[..c.taken], requirements[c.taken..];
      if c.sum < 0 then forall r | r in requirements :: r == 0 || (second.Defaults? && c.sum + r == 0)
      else (c.sum > 0 || FirstPositiveMatched(after)) && (before == [] || Largest(before) < RaiseAll(c.sum, after))
  }

  lemma AtRestAbove(kind: Kind, value: int, before: seq<nat>, after: seq<nat>)
    requires value >= 0
    ensures AtRest(kind, value, before + after) <==>
      (forall r | r in before :: r > 0 ==> value > r) && (forall r | r in after :: r > 0 ==> value > r)
  {
    assert forall r :: r in before + after <==> r in before || r in after;
    assert forall r: nat :: RaiseIn(kind, value, r) == value <==> (r > 0 ==> value > r);
  }

  lemma AboveLargest(value: int, sum: nat, before: seq<nat>)
    requires before != [] ==> sum < Largest(before)
    ensures (forall r | r in before :: r > 0 ==> value > r) <==> before == [] || Largest(before) < value
  {
    LargestIs(before);
  }

  /** The number after one pass is at rest exactly for a repeatable value. */
  lemma RepeatableIff(first: Kind, second: Kind, value: Value, requirements: seq<nat>)
    requires value.AsNumber().Some?
    ensures var w := RaiseAllIn(first, value.AsNumber().value, requirements);
      AtRest(second, w, requirements) <==> Repeatable(first, second, value, requirements)
  {
    var n := value.AsNumber().value;
    var c := Climb(first, n, requirements);
    var before, after := requirements[..c.taken], requirements[c.taken..];
    RaisedFromClimb(first, n, requirements);
    ClimbedBelow(first, n, requirements);
    assert before + after == requirements;
    if c.sum < 0 {
      assert after == [];
    } else {
      RaiseAllInIsRaiseAll(first, c.sum, after);
      RaisedWithinBounds(c.sum, after);
      AtRestAbove(second, RaiseAll(c.sum, after), before, after);
      AboveLargest(RaiseAll(c.sum, after), c.sum, before);
      FromZero(after);
    }
  }

  predicate OnlyRaised(kind: Kind, met: seq<Trigger>, k: string) {
    k in RESOURCE_KEYS && !SetByPlain(kind, met, k) && Requirements(met, k) != []
  }

  /** A second run, by a configuration of kind `second`, over what a first one
      made of an attribute only OLM triggers compute. */
  lemma RaisedAgain(first: Kind, second: Kind, user: bool, k: string, cell: Cell, after: Cell, met: seq<Trigger>)
    requires Free(first, user, cell) && CellAll(first, user, k, cell, met).Ok?
    requires OnlyRaised(first, met, k) && !SetByPlain(second, met, k)
    requires after.value == CellAll(first, user, k, cell, met).value.value
    requires Free(second, user, after) && CellAll(second, user, k, after, met).Ok?
    requires first != second ==> cell.value.Int?
    ensures CellAll(second, user, k, after, met).value.value == after.value <==>
      Repeatable(first, second, cell.value, Requirements(met, k))
  {
    NumberIfRequired(first, user, k, cell, met);
    RaisedOnly(first, user, k, cell, met);
    RepeatableIff(first, second, cell.value, Requirements(met, k));
    RaisedOnly(second, user, k, after, met);
    AtRestIff(second, after.value.AsNumber().value, Requirements(met, k));
    if AtRest(second, after.value.AsNumber().value, Requirements(met, k)) {
      RestingStays(second, user, k, after, met);
    }
  }

  /** The second pass on a settable attribute. */
  lemma FreeAgain(kind: Kind, user: bool, k: string, cell: Cell, met: seq<Trigger>)
    requires SetsAmounts(met) && Free(kind, user, cell) && CellAll(kind, user, k, cell, met).Ok?
    ensures var d := CellAll(kind, user, k, cell, met).value;
      && CellAll(kind, user, k, d, met).Ok?
      && (CellAll(kind, user, k, d, met) == Ok(d) <==>
          (OnlyRaised(kind, met, k) ==> Repeatable(kind, kind, cell.value, Requirements(met, k))))
  {
    var d := CellAll(kind, user, k, cell, met).value;
    FreeAll(kind, user, k, cell, met);
    if k in RESOURCE_KEYS { NumberAtEnd(kind, user, k, cell, met); }
    GoesThrough(kind, user, k, cell, d, met);
    OriginAfter(kind, user, k, cell, met);
    OriginAfter(kind, user, k, d, met);
    if SetByPlain(kind, met, k) {
      ValuesAgree(kind, kind, user, k, cell, d, met);
    } else if OnlyRaised(kind, met, k) {
      RaisedAgain(kind, kind, user, k, cell, d, met);
    } else {
      NothingSet(kind, user, k, d, met);
    }
  }

  lemma {:induction false} LockedAgain(kind: Kind, user: bool, k: string, cell: Cell, met: seq<Trigger>)
    requires !Free(kind, user, cell) && CellAll(kind, user, k, cell, met).Ok?
    ensures CellAll(kind, user, k, cell, met) == Ok(cell)
    decreases |met|
  {
    if met != [] { LockedAgain(kind, user, k, cell, met[1..]); }
  }

  /** Repeating a pass with the same met triggers goes through, and changes
      nothing exactly when every attribute that only OLM triggers compute starts
      on a repeatable value. Plain triggers never stand in the way. */
  lemma PassAgainIff(c: Config, met: seq<Trigger>)
    requires SetsAmounts(met) && HandleAll(c, met).Ok?
    ensures var d := HandleAll(c, met).value;
      && HandleAll(d, met).Ok?
      && (HandleAll(d, met) == Ok(d) <==>
          forall k | k in c.attrs && RaisedAttr(c, met, k) ::
            Repeatable(c.kind, c.kind, c.attrs[k], Requirements(met, k)))
  {
    var d := HandleAll(c, met).value;
    HandleAllCells(c, met);
    forall k | k in c.attrs
      ensures CellAll(c.kind, k in c.userSet, k, CellOf(d, k), met).Ok?
      ensures CellAll(c.kind, k in c.userSet, k, CellOf(d, k), met) == Ok(CellOf(d, k)) <==>
        (RaisedAttr(c, met, k) ==> Repeatable(c.kind, c.kind, c.attrs[k], Requirements(met, k)))
    {
      AttributeAgain(c, met, k);
    }
    HandleAllCells(d, met);
    assert HandleAll(d, met).Ok?;
    var e := HandleAll(d, met).value;
    if forall k | k in c.attrs && RaisedAttr(c, met, k) ::
      Repeatable(c.kind, c.kind, c.attrs[k], Requirements(met, k))
    {
      SameConfig(d, e);
    }
    if e == d {
      forall k | k in c.attrs && RaisedAttr(c, met, k)
        ensures Repeatable(c.kind, c.kind, c.attrs[k], Requirements(met, k))
      {
        assert k in d.attrs && CellOf(e, k) == CellOf(d, k);
      }
    }
  }

  lemma AttributeAgain(c: Config, met: seq<Trigger>, k: string)
    requires SetsAmounts(met) && HandleAll(c, met).Ok? && k in c.attrs
    ensures var d := HandleAll(c, met).value;
      && k in d.attrs
      && CellAll(c.kind, k in c.userSet, k, CellOf(d, k), met).Ok?
      && (CellAll(c.kind, k in c.userSet, k, CellOf(d, k), met) == Ok(CellOf(d, k)) <==>
          (RaisedAttr(c, met, k) ==> Repeatable(c.kind, c.kind, c.attrs[k], Requirements(met, k))))
  {
    HandleAllCells(c, met);
    var cell := CellOf(c, k);
    assert Settable(c, k) <==> Free(c.kind, k in c.userSet, cell);
    if Settable(c, k) {
      FreeAgain(c.kind, k in c.userSet, k, cell, met);
    } else {
      LockedAgain(c.kind, k in c.userSet, k, cell, met);
    }
  }

  /** The failing side at an input: a worker memory of 0 under the CNV operator
      is raised to its requirement by one pass and to twice that by the next. */
  lemma ZeroIsRaisedTwice(conditions: seq<Condition>)
    ensures var c := Config(Plain, map["worker_memory" := Int(0)], map[], {});
      var met := [Olm(conditions, "cnv", false)];
      && HandleAll(c, met).Ok? && HandleAll(HandleAll(c, met).value, met).Ok?
      && var d := HandleAll(c, met).value;
      var e := HandleAll(d, met).value;
      && "worker_memory" in d.attrs && d.attrs["worker_memory"] == Int(360)
      && "worker_memory" in e.attrs && e.attrs["worker_memory"] == Int(720)
  {
    var c := Config(Plain, map["worker_memory" := Int(0)], map[], {});
    OneOlmPass(c, conditions, "worker_memory", 0);
    var d := HandleAll(c, [Olm(conditions, "cnv", false)]).value;
    OneOlmPass(d, conditions, "worker_memory", 360);
  }

  /** One pass of the CNV operator over a settable worker memory. */
  lemma OneOlmPass(c: Config, conditions: seq<Condition>, k: string, n: int)
    requires k == "worker_memory" && c.attrs.Keys == {k} && c.attrs[k] == Int(n) && Settable(c, k) && c.kind.Plain?
    ensures var met := [Olm(conditions, "cnv", false)];
      && HandleAll(c, met).Ok?
      && var d := HandleAll(c, met).value;
      && d.attrs.Keys == {k} && Settable(d, k) && d.kind.Plain?
      && d.attrs[k] == Int(Raise(n, 360))
  {
    var t := Olm(conditions, "cnv", false);
    var met := [t];
    assert RESOURCE_KEYS[1] == k;
    assert Requirement("cnv", false, k) == Some(360);
    HandleCells(c, t);
    assert HandleAll(c, met) == Handle(c, t) by { assert met[1..] == []; }
    FreeStep(c.kind, k in c.userSet, k, CellOf(c, k), t);
  }

  /** After a pass each such attribute that started positive exceeds every
      requirement it was checked against, and ends at most at twice the largest
      one unless it started higher. */
  lemma PassMeetsRequirements(c: Config, met: seq<Trigger>, k: string)
    requires HandleAll(c, met).Ok? && RaisedAttr(c, met, k) && Amount(c.attrs[k]) && c.attrs[k].n > 0
    ensures var d := HandleAll(c, met).value;
      var reqs := Requirements(met, k);
      && k in d.attrs && d.attrs[k].Int?
      && (forall r | r in reqs :: r < d.attrs[k].n)
      && (d.attrs[k] == c.attrs[k] || d.attrs[k].n <= 2 * Largest(reqs))
  {
    HandleAllCells(c, met);
    RaisedOnly(c.kind, k in c.userSet, k, CellOf(c, k), met);
    RaiseAllInIsRaiseAll(c.kind, c.attrs[k].n, Requirements(met, k));
    RaisedWithinBounds(c.attrs[k].n, Requirements(met, k));
  }

  // ---------- defaults first, configurations built from them next ----------

  /** A configuration object whose constructor arguments of None are filled from
      the data pool. */
  function BuildConfig(args: map<string, Value>, pool: Config): Config {
    var attrs := map k | k in args ::
      if !args[k].NoneValue? then args[k] else if k in pool.attrs then pool.attrs[k] else NoneValue;
    Config(Plain, attrs, map[], pool.userSet)
  }

  /** A pass over DefaultVariables and a second one, with the same met triggers,
      over a configuration built from them: an attribute the configuration took
      from the defaults keeps the value the first pass gave it, so that
      requirements are not raised twice, exactly when it is not computed by OLM
      triggers alone or is repeatable. Settings that DefaultVariables drop are
      excluded: there the two kinds differ by design. */
  lemma DefaultsThenConfigIff(pool: Config, args: map<string, Value>, met: seq<Trigger>, k: string)
    requires pool.kind.Defaults? && pool.keysOrigin == map[]
    requires SetsAmounts(met) && HandleAll(pool, met).Ok?
    requires k in pool.attrs && k in args && args[k].NoneValue?
    requires AllTruthy(met, k)
    requires RaisedAttr(pool, met, k) ==> pool.attrs[k].Int?
    requires HandleAll(BuildConfig(args, HandleAll(pool, met).value), met).Ok?
    ensures var defaults := HandleAll(pool, met).value;
      var config := HandleAll(BuildConfig(args, defaults), met).value;
      && k in config.attrs && k in defaults.attrs
      && (config.attrs[k] == defaults.attrs[k] <==>
          (RaisedAttr(pool, met, k) ==> Repeatable(Defaults, Plain, pool.attrs[k], Requirements(met, k))))
  {
    var defaults := HandleAll(pool, met).value;
    var built := BuildConfig(args, defaults);
    HandleAllCells(pool, met);
    HandleAllCells(built, met);
    var user := k in pool.userSet;
    var before := CellOf(pool, k);
    var after := CellOf(defaults, k);
    var start := CellOf(built, k);
    assert start == Cell(after.value, None);
    SetByPlainSame(met, k);
    if user {
      LockedAgain(Plain, user, k, start, met);
    } else {
      FreeAll(Defaults, user, k, before, met);
      FreeAgain(Defaults, user, k, before, met);
      if SetByPlain(Defaults, met, k) {
        ValuesAgree(Defaults, Plain, user, k, after, start, met);
      } else if OnlyRaised(Defaults, met, k) {
        RaisedAgain(Defaults, Plain, user, k, before, start, met);
      } else {
        NothingSet(Plain, user, k, start, met);
      }
    }
  }

  lemma {:induction false} SetByPlainSame(met: seq<Trigger>, k: string)
    requires AllTruthy(met, k)
    ensures SetByPlain(Defaults, met, k) <==> SetByPlain(Plain, met, k)
    decreases |met|
  {
    if met != [] {
      AllTruthyFirst(met, k);
      SetByPlainSame(met[1..], k);
    }
  }
}
