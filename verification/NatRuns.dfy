/** Test runs from end to end: each takes an asset from the pool, adds NAT rules
    under the mark of its bridge name, removes them and gives the asset back,
    all interleaved over one assets file and one iptables table. */
module NatRuns {
  import opened Sequences
  import opened Text
  import opened Cidr
  import opened NetworkAssets
  import opened AssetRuns
  import opened Nat

  /** Where a run stands between its fixtures; `outputs` are the default
      interfaces its rules were added for. */
  datatype Phase =
    | Fresh
    | Holding
    | Natted(outputs: seq<string>)
    | Done

  datatype World = World(ledger: Ledger, phases: seq<Phase>)

  datatype Fixture =
    | Take(id: nat, seenIps: seq<IPNet>, seenBridges: seq<string>)
    | SetUp(id: nat, outputs: seq<string>)
    | TearDown(id: nat, outputs: seq<string>)
    | GiveBack(id: nat)

  predicate Holds(w: World, id: nat) {
    id < |w.phases| && (w.phases[id].Holding? || w.phases[id].Natted?)
  }

  /** The controller of a run: both bridges, and the index in the first name. */
  function ControllerOf(a: Asset): Controller {
    Controller([a.networkIf, a.secondaryIf], NamespaceIndex(a.networkIf))
  }

  function MarkOf(a: Asset): nat {
    Mark(ControllerOf(a).nsIndex)
  }

  /** The fixtures of one run come in order; the removal of its rules may be
      left out, the return of its asset comes in either case. A step out of
      order does not happen, a `Take` that raised may be tried again. */
  predicate InOrder(w: World, e: Fixture) {
    e.id < |w.phases| && e.id < |w.ledger.clients| &&
    match e
    case Take(id, _, _) => w.phases[id].Fresh?
    case SetUp(id, _) => w.phases[id].Holding?
    case TearDown(id, _) => w.phases[id].Natted?
    case GiveBack(id) => Holds(w, id)
  }

  function PoolEvent(e: Fixture): Event
    requires e.Take? || e.GiveBack?
  {
    if e.Take? then Get(e.id, e.seenIps, e.seenBridges) else ReleaseAll(e.id)
  }

  function NextPhase(w: World, e: Fixture): Phase
    requires InOrder(w, e)
  {
    match e
    case Take(id, seenIps, seenBridges) =>
      if GetStep(w.ledger.clients[id], AssetsIn(w.ledger.entries), seenIps, seenBridges).raised then Fresh else Holding
    case SetUp(_, outputs) => Natted(outputs)
    case TearDown(_, _) => Holding
    case GiveBack(_) => Done
  }

  function Proceed(w: World, e: Fixture): World {
    if !InOrder(w, e) then w
    else
      var ledger := if e.Take? || e.GiveBack? then ApplyOwned(w.ledger, PoolEvent(e)) else w.ledger;
      World(ledger, w.phases[e.id := NextPhase(w, e)])
  }

  /** What a step does to the table. */
  function NatOf(w: World, e: Fixture): seq<NatEvent> {
    if !InOrder(w, e) then []
    else if e.SetUp? then [AddNatRules(ControllerOf(w.ledger.clients[e.id].asset), e.outputs)]
    else if e.TearDown? then [RemoveNatRules(ControllerOf(w.ledger.clients[e.id].asset), e.outputs)]
    else []
  }

  function RunAll(w: World, es: seq<Fixture>): World
    decreases |es|
  {
    if es == [] then w else RunAll(Proceed(w, es[0]), es[1..])
  }

  function NatEvents(w: World, es: seq<Fixture>): seq<NatEvent>
    decreases |es|
  {
    if es == [] then [] else NatOf(w, es[0]) + NatEvents(Proceed(w, es[0]), es[1..])
  }

  /** The iptables table after the run. */
  function TableAfter(w: World, es: seq<Fixture>, table: seq<string>): seq<string> {
    RunNat(table, NatEvents(w, es))
  }

  // ---------- holders have marks of their own ----------

  ghost predicate Good(w: World, p4: nat, p6: nat) {
    && |w.phases| == |w.ledger.clients|
    && Tracked(w.ledger)
    && Sound(Forget(w.ledger), p4, p6)
    && CanonicalNames(Forget(w.ledger))
    && (forall id: nat | Holds(w, id) :: Entry(id, w.ledger.clients[id].asset) in w.ledger.entries)
  }

  function FreshWorld(bases: seq<Asset>): World {
    World(FreshLedger(bases), seq(|bases|, _ => Fresh))
  }

  lemma FreshWorldIsGood(bases: seq<Asset>, p4: nat, p6: nat)
    requires forall a | a in bases :: WellShaped(a, p4, p6) && Canonical(a.networkIf)
    ensures Good(FreshWorld(bases), p4, p6)
  {
    FreshPoolIsSound(bases, p4, p6);
    FreshLedgerIsTracked(bases);
    assert forall i | 0 <= i < |bases| :: bases[i] in bases;
  }

  lemma StepKeepsGood(w: World, e: Fixture, p4: nat, p6: nat)
    requires Good(w, p4, p6)
    ensures Good(Proceed(w, e), p4, p6)
  {
    if InOrder(w, e) && (e.Take? || e.GiveBack?) {
      var pool := PoolEvent(e);
      OwnedStep(w.ledger, pool);
      StepKeepsSound(Forget(w.ledger), pool, p4, p6);
      StepKeepsCanonicalNames(Forget(w.ledger), pool);
      HoldersKeepEntries(w, e, p4, p6);
    }
  }

  lemma HoldersKeepEntries(w: World, e: Fixture, p4: nat, p6: nat)
    requires Good(w, p4, p6) && InOrder(w, e) && (e.Take? || e.GiveBack?)
    ensures var v := Proceed(w, e);
      forall id: nat | Holds(v, id) :: id < |v.ledger.clients| && Entry(id, v.ledger.clients[id].asset) in v.ledger.entries
  {
    NotOwnedByIs(w.ledger.entries, {e.id});
    var v := Proceed(w, e);
    forall id: nat | Holds(v, id)
      ensures id < |v.ledger.clients| && Entry(id, v.ledger.clients[id].asset) in v.ledger.entries
    {
      assert id != e.id ==> Holds(w, id);
    }
  }

  lemma {:induction false} RunKeepsGood(w: World, es: seq<Fixture>, p4: nat, p6: nat)
    requires Good(w, p4, p6)
    ensures Good(RunAll(w, es), p4, p6)
    decreases |es|
  {
    if es != [] {
      StepKeepsGood(w, es[0], p4, p6);
      RunKeepsGood(Proceed(w, es[0]), es[1..], p4, p6);
    }
  }

  lemma EntriesMarkedApart(l: Ledger, k: nat, m: nat, p4: nat, p6: nat)
    requires Sound(Forget(l), p4, p6) && CanonicalNames(Forget(l))
    requires k < m < |l.entries|
    ensures MarkOf(l.entries[k].asset) != MarkOf(l.entries[m].asset)
  {
    var file := Forget(l).file;
    AssetsInAt(l.entries);
    PrimaryNamesDiffer(file, k, m);
    CanonicalNamesMarkedApart(file[k].networkIf, file[m].networkIf);
  }

  lemma HoldersMarkedApart(w: World, i: nat, j: nat, p4: nat, p6: nat)
    requires Good(w, p4, p6) && Holds(w, i) && Holds(w, j)
    ensures MarkOf(w.ledger.clients[i].asset) == MarkOf(w.ledger.clients[j].asset) <==> i == j
  {
    var entries := w.ledger.entries;
    var k :| 0 <= k < |entries| && entries[k] == Entry(i, w.ledger.clients[i].asset);
    var m :| 0 <= m < |entries| && entries[m] == Entry(j, w.ledger.clients[j].asset);
    if k < m {
      EntriesMarkedApart(w.ledger, k, m, p4, p6);
    } else if m < k {
      EntriesMarkedApart(w.ledger, m, k, p4, p6);
    }
  }

  /** In every reachable state any two runs that hold an asset have different
      marks. */
  lemma EveryRunMarksHoldersApart(bases: seq<Asset>, es: seq<Fixture>, i: nat, j: nat, p4: nat, p6: nat)
    requires forall a | a in bases :: WellShaped(a, p4, p6) && Canonical(a.networkIf)
    requires var w := RunAll(FreshWorld(bases), es); Holds(w, i) && Holds(w, j)
    ensures var w := RunAll(FreshWorld(bases), es);
      && |w.ledger.clients| == |w.phases|
      && (MarkOf(w.ledger.clients[i].asset) == MarkOf(w.ledger.clients[j].asset) <==> i == j)
  {
    FreshWorldIsGood(bases, p4, p6);
    RunKeepsGood(FreshWorld(bases), es, p4, p6);
    HoldersMarkedApart(RunAll(FreshWorld(bases), es), i, j, p4, p6);
  }

  // ---------- the rules of a holder ----------

  predicate LeavesAlone(es: seq<Fixture>, id: nat) {
    forall k | 0 <= k < |es| :: es[k].id != id
  }

  /** While run `i` holds its asset no step of another run acts under its mark. */
  lemma {:induction false} OthersUseOtherMarks(w: World, es: seq<Fixture>, i: nat, p4: nat, p6: nat)
    requires Good(w, p4, p6) && Holds(w, i) && LeavesAlone(es, i)
    ensures forall n | n in NatEvents(w, es) :: Mark(n.c.nsIndex) != MarkOf(w.ledger.clients[i].asset)
    decreases |es|
  {
    if es != [] {
      var e := es[0];
      var v := Proceed(w, e);
      StepKeepsGood(w, e, p4, p6);
      OthersUseOtherMarks(v, es[1..], i, p4, p6);
      if InOrder(w, e) && (e.SetUp? || e.TearDown?) {
        HoldersMarkedApart(w, e.id, i, p4, p6);
      }
    }
  }

  /** No run ever deletes, adds or reorders a rule of a run that holds its
      asset. */
  lemma HeldRulesSurvive(w: World, es: seq<Fixture>, i: nat, table: seq<string>, p4: nat, p6: nat)
    requires Good(w, p4, p6) && Holds(w, i) && LeavesAlone(es, i)
    ensures var mark := MarkOf(w.ledger.clients[i].asset);
      Only(TableAfter(w, es, table), mark) == Only(table, mark)
  {
    OthersUseOtherMarks(w, es, i, p4, p6);
    OthersNeverDelete(table, NatEvents(w, es), MarkOf(w.ledger.clients[i].asset));
  }

  function InPhase(w: World, i: nat, p: Phase): World
    requires i < |w.phases|
  {
    w.(phases := w.phases[i := p])
  }

  /** The steps of others do not depend on the phase of run `i`. */
  lemma {:induction false} OthersDoNotSee(w: World, es: seq<Fixture>, i: nat, p: Phase)
    requires LeavesAlone(es, i) && i < |w.phases| && i < |w.ledger.clients|
    ensures NatEvents(InPhase(w, i, p), es) == NatEvents(w, es)
    ensures var end := RunAll(w, es);
      && i < |end.phases| && i < |end.ledger.clients|
      && RunAll(InPhase(w, i, p), es) == InPhase(end, i, p)
      && end.ledger.clients[i] == w.ledger.clients[i]
      && end.phases[i] == w.phases[i]
    decreases |es|
  {
    if es != [] {
      var e := es[0];
      var next := Proceed(w, e);
      var seen := w.phases[i := p];
      if InOrder(w, e) {
        assert w.phases[e.id := NextPhase(w, e)][i := p] == seen[e.id := NextPhase(w, e)];
      }
      assert Proceed(InPhase(w, i, p), e) == InPhase(next, i, p);
      OthersDoNotSee(next, es[1..], i, p);
    }
  }

  lemma {:induction false} NatEventsConcat(w: World, xs: seq<Fixture>, ys: seq<Fixture>)
    ensures NatEvents(w, xs + ys) == NatEvents(w, xs) + NatEvents(RunAll(w, xs), ys)
    decreases |xs|
  {
    if xs == [] {
      assert xs + ys == ys;
    } else {
      assert (xs + ys)[0] == xs[0] && (xs + ys)[1..] == xs[1..] + ys;
      NatEventsConcat(Proceed(w, xs[0]), xs[1..], ys);
      ConcatAssoc(NatOf(w, xs[0]), NatEvents(Proceed(w, xs[0]), xs[1..]), NatEvents(RunAll(w, xs), ys));
    }
  }

  lemma {:induction false} RunNatConcat(table: seq<string>, xs: seq<NatEvent>, ys: seq<NatEvent>)
    ensures RunNat(table, xs + ys) == RunNat(RunNat(table, xs), ys)
    decreases |xs|
  {
    if xs == [] {
      assert xs + ys == ys;
    } else {
      assert (xs + ys)[0] == xs[0] && (xs + ys)[1..] == xs[1..] + ys;
      RunNatConcat(ApplyNat(table, xs[0]), xs[1..], ys);
    }
  }

  /** A run sets up its rules, others take any steps, it removes its rules. If
      no rule of its mark was there before, the table is then what the steps of
      the others alone would have made of it, exactly when no default interface
      present at set-up is missing at tear-down. */
  lemma SetUpAndTearDownLeaveOthers(
      w: World, i: nat, outputs: seq<string>, es: seq<Fixture>, later: seq<string>, table: seq<string>, p4: nat, p6: nat)
    requires Good(w, p4, p6) && i < |w.phases| && w.phases[i].Holding? && LeavesAlone(es, i)
    requires forall r | r in table :: !RuleOf(r, MarkOf(w.ledger.clients[i].asset))
    ensures TableAfter(w, [SetUp(i, outputs)] + es + [TearDown(i, later)], table) == TableAfter(w, es, table) <==>
      forall o | o in outputs :: o in later
  {
    var c := ControllerOf(w.ledger.clients[i].asset);
    var v := Proceed(w, SetUp(i, outputs));
    assert v == InPhase(w, i, Natted(outputs));
    OthersDoNotSee(w, es, i, Natted(outputs));
    OneEvent(w, SetUp(i, outputs));
    OneEvent(RunAll(v, es), TearDown(i, later));
    OthersUseOtherMarks(w, es, i, p4, p6);
    SetUpThenTearDown(table, c, outputs, NatEvents(w, es), later);
    NatEventsConcat(w, [SetUp(i, outputs)], es);
    NatEventsConcat(w, [SetUp(i, outputs)] + es, [TearDown(i, later)]);
    RunAllConcat(w, [SetUp(i, outputs)], es);
    RunNatConcat(table, [AddNatRules(c, outputs)] + NatEvents(w, es), [RemoveNatRules(c, later)]);
    RunNatConcat(table, [AddNatRules(c, outputs)], NatEvents(w, es));
    RunNatOne(table, AddNatRules(c, outputs));
    RunNatOne(RunNat(ApplyNat(table, AddNatRules(c, outputs)), NatEvents(w, es)), RemoveNatRules(c, later));
  }

  lemma OneEvent(w: World, e: Fixture)
    ensures NatEvents(w, [e]) == NatOf(w, e) && RunAll(w, [e]) == Proceed(w, e)
  {
    assert NatEvents(w, [e]) == NatOf(w, e) + NatEvents(Proceed(w, e), []);
    assert RunAll(w, [e]) == RunAll(Proceed(w, e), []);
  }

  lemma RunNatOne(table: seq<string>, e: NatEvent)
    ensures RunNat(table, [e]) == ApplyNat(table, e)
  {
    assert RunNat(table, [e]) == RunNat(ApplyNat(table, e), []);
  }

  lemma {:induction false} RunAllConcat(w: World, xs: seq<Fixture>, ys: seq<Fixture>)
    ensures RunAll(w, xs + ys) == RunAll(RunAll(w, xs), ys)
    decreases |xs|
  {
    if xs == [] {
      assert xs + ys == ys;
    } else {
      assert (xs + ys)[0] == xs[0] && (xs + ys)[1..] == xs[1..] + ys;
      RunAllConcat(Proceed(w, xs[0]), xs[1..], ys);
    }
  }

  /** The set-up of a run that holds an asset: both of its bridges are marked and
      every default interface masqueraded under 555 plus the number in the name
      of the first bridge. */
  lemma SetUpCoversAsset(w: World, i: nat, outputs: seq<string>, table: seq<string>, n: nat)
    requires i < |w.phases| && i < |w.ledger.clients| && w.phases[i].Holding?
    requires w.ledger.clients[i].asset.networkIf == "tt" + Decimal(n)
    ensures var a := w.ledger.clients[i].asset;
      IsSetUp(table, TableAfter(w, [SetUp(i, outputs)], table), [a.networkIf, a.secondaryIf], outputs, 555 + n)
  {
    var c := ControllerOf(w.ledger.clients[i].asset);
    IndexOfBridgeName(n);
    OneEvent(w, SetUp(i, outputs));
    RunNatOne(table, AddNatRules(c, outputs));
    SetUpCoversInterfaces(table, c, outputs);
  }

  // ---------- nothing is left behind ----------

  ghost predicate Marked(rule: string) {
    exists n: nat :: RuleOf(rule, Mark(n))
  }

  /** The rules of the table that carry no mark of a run, in order. */
  ghost function Foreign(table: seq<string>): seq<string> {
    if table == [] then []
    else if Marked(table[0]) then Foreign(table[1..])
    else [table[0]] + Foreign(table[1..])
  }

  lemma ForeignAdd(table: seq<string>, rule: string)
    requires Marked(rule)
    ensures Foreign(AddRule(table, rule)) == Foreign(table)
  {
    assert ([rule] + table)[1..] == table;
  }

  lemma {:induction false} ForeignRemove(table: seq<string>, rule: string)
    requires Marked(rule)
    ensures Foreign(RemoveRule(table, rule)) == Foreign(table)
  {
    if table != [] && table[0] != rule {
      ForeignRemove(table[1..], rule);
      var rest := RemoveRule(table[1..], rule);
      assert ([table[0]] + rest)[1..] == rest;
    }
  }

  lemma {:induction false} ForeignAll(table: seq<string>, rules: seq<string>)
    requires forall r | r in rules :: Marked(r)
    ensures Foreign(AddAll(table, rules)) == Foreign(table)
    ensures Foreign(RemoveAll(table, rules)) == Foreign(table)
    decreases |rules|
  {
    if rules != [] {
      ForeignAdd(table, rules[0]);
      ForeignRemove(table, rules[0]);
      ForeignAll(AddRule(table, rules[0]), rules[1..]);
      ForeignAll(RemoveRule(table, rules[0]), rules[1..]);
    }
  }

  lemma ForeignEvent(table: seq<string>, e: NatEvent)
    ensures Foreign(ApplyNat(table, e)) == Foreign(table)
  {
    var own := Mark(e.c.nsIndex);
    OwnRules(own, e.c.inputs, e.outputs);
    if e.AddNatRules? {
      ForeignAll(table, NatRules(own, e.outputs) + MarkRules(own, e.c.inputs));
    } else {
      ForeignAll(table, MarkRules(own, e.c.inputs) + NatRules(own, e.outputs));
    }
  }

  lemma {:induction false} ForeignOnly(table: seq<string>)
    requires forall r | r in table :: !Marked(r)
    ensures Foreign(table) == table
  {
    if table != [] { ForeignOnly(table[1..]); }
  }

  /** A step that leaves no rules behind: the asset is given back after the
      rules are removed, and they are removed for every default interface they
      were added for. */
  predicate Tidy(w: World, e: Fixture) {
    InOrder(w, e) ==>
      match e
      case Take(_, _, _) => true
      case SetUp(_, _) => true
      case TearDown(id, outputs) => forall o | o in w.phases[id].outputs :: o in outputs
      case GiveBack(id) => w.phases[id].Holding?
  }

  predicate TidyRun(w: World, es: seq<Fixture>)
    decreases |es|
  {
    es != [] ==> Tidy(w, es[0]) && TidyRun(Proceed(w, es[0]), es[1..])
  }

  ghost predicate Active(w: World, id: nat, n: nat) {
    && id < |w.phases| && id < |w.ledger.clients|
    && w.phases[id].Natted?
    && MarkOf(w.ledger.clients[id].asset) == Mark(n)
  }

  lemma OnlyOneActive(w: World, i: nat, j: nat, n: nat, p4: nat, p6: nat)
    requires Good(w, p4, p6) && Active(w, j, n) && Holds(w, i) && MarkOf(w.ledger.clients[i].asset) == Mark(n)
    ensures i == j
  {
    HoldersMarkedApart(w, i, j, p4, p6);
  }

  lemma QuietStepKeepsActive(w: World, e: Fixture, id: nat, n: nat)
    requires |w.phases| == |w.ledger.clients|
    requires Tidy(w, e) && !(InOrder(w, e) && (e.SetUp? || e.TearDown?))
    ensures Active(Proceed(w, e), id, n) <==> Active(w, id, n)
    ensures Active(w, id, n) ==> Proceed(w, e).phases[id] == w.phases[id]
    ensures Active(w, id, n) ==> Proceed(w, e).ledger.clients[id].asset == w.ledger.clients[id].asset
  {
  }

  /** Which run is active under a mark after its rules change. */
  lemma ActiveAfter(w: World, e: Fixture, id: nat, n: nat, p4: nat, p6: nat)
    requires Good(w, p4, p6) && InOrder(w, e) && (e.SetUp? || e.TearDown?)
    ensures Active(Proceed(w, e), id, n) <==>
      if MarkOf(w.ledger.clients[e.id].asset) == Mark(n) then id == e.id && e.SetUp? else Active(w, id, n)
    ensures Active(w, id, n) && MarkOf(w.ledger.clients[e.id].asset) == Mark(n) ==> id == e.id && e.TearDown?
    ensures Active(w, id, n) && id != e.id ==> Proceed(w, e).phases[id] == w.phases[id]
  {
    if Active(w, id, n) && MarkOf(w.ledger.clients[e.id].asset) == Mark(n) {
      OnlyOneActive(w, e.id, id, n, p4, p6);
    }
  }

  /** The rules of a mark are those of the run that set them up, if any. */
  ghost predicate AccountedFor(w: World, rules: seq<string>, n: nat) {
    && ((forall id: nat :: !Active(w, id, n)) ==> rules == [])
    && (forall id: nat | Active(w, id, n) ::
          rules == ApplyNat([], AddNatRules(ControllerOf(w.ledger.clients[id].asset), w.phases[id].outputs)))
  }

  ghost predicate Accounted(w: World, table: seq<string>) {
    forall n: nat :: AccountedFor(w, Only(table, Mark(n)), n)
  }

  /** One step seen at the mark of its own run. */
  lemma AccountedAtOwn(w: World, e: Fixture, table: seq<string>, n: nat, p4: nat, p6: nat)
    requires Good(w, p4, p6) && AccountedFor(w, Only(table, Mark(n)), n) && Tidy(w, e)
    requires InOrder(w, e) && (e.SetUp? || e.TearDown?) && MarkOf(w.ledger.clients[e.id].asset) == Mark(n)
    ensures AccountedFor(Proceed(w, e), Only(ApplyNat(table, NatOf(w, e)[0]), Mark(n)), n)
  {
    var c := ControllerOf(w.ledger.clients[e.id].asset);
    EventOnly(table, NatOf(w, e)[0], Mark(n));
    forall id: nat {
      ActiveAfter(w, e, id, n, p4, p6);
    }
    if e.TearDown? {
      assert Active(w, e.id, n);
      LeftOver(c, w.phases[e.id].outputs, e.outputs);
    }
  }

  /** One step seen at any mark. */
  lemma AccountedAt(w: World, e: Fixture, table: seq<string>, n: nat, p4: nat, p6: nat)
    requires Good(w, p4, p6) && AccountedFor(w, Only(table, Mark(n)), n) && Tidy(w, e)
    requires InOrder(w, e) && (e.SetUp? || e.TearDown?)
    ensures AccountedFor(Proceed(w, e), Only(ApplyNat(table, NatOf(w, e)[0]), Mark(n)), n)
  {
    if MarkOf(w.ledger.clients[e.id].asset) == Mark(n) {
      AccountedAtOwn(w, e, table, n, p4, p6);
    } else {
      EventOnly(table, NatOf(w, e)[0], Mark(n));
      forall id: nat {
        ActiveAfter(w, e, id, n, p4, p6);
      }
    }
  }

  lemma StepKeepsAccounted(w: World, e: Fixture, table: seq<string>, p4: nat, p6: nat)
    requires Good(w, p4, p6) && Accounted(w, table) && Tidy(w, e)
    ensures Accounted(Proceed(w, e), RunNat(table, NatOf(w, e)))
    ensures Foreign(RunNat(table, NatOf(w, e))) == Foreign(table)
  {
    if InOrder(w, e) && (e.SetUp? || e.TearDown?) {
      RunNatOne(table, NatOf(w, e)[0]);
      ForeignEvent(table, NatOf(w, e)[0]);
      forall n: nat {
        AccountedAt(w, e, table, n, p4, p6);
      }
    } else {
      forall id: nat, n: nat {
        QuietStepKeepsActive(w, e, id, n);
      }
    }
  }

  lemma FirstBridgeMarked(a: Asset, outputs: seq<string>)
    ensures MarkRule(MarkOf(a), a.networkIf) in ApplyNat([], AddNatRules(ControllerOf(a), outputs))
  {
    var c := ControllerOf(a);
    AddAllElements([], NatRules(MarkOf(a), outputs) + MarkRules(MarkOf(a), c.inputs));
    assert MarkRules(MarkOf(a), c.inputs)[0] == MarkRule(MarkOf(a), a.networkIf);
  }

  lemma NobodyElseActive(w: World, i: nat, id: nat, n: nat, p4: nat, p6: nat)
    requires Good(w, p4, p6) && Active(w, i, n)
    ensures !Active(Proceed(w, GiveBack(i)), id, n)
  {
    if id != i && Active(w, id, n) {
      OnlyOneActive(w, i, id, n, p4, p6);
    }
  }

  lemma ActiveHasRules(w: World, i: nat, n: nat, rules: seq<string>)
    requires Active(w, i, n) && AccountedFor(w, rules, n)
    ensures rules != []
  {
    FirstBridgeMarked(w.ledger.clients[i].asset, w.phases[i].outputs);
  }

  /** Giving the asset back before the removal leaves rules nobody holds. */
  lemma EarlyReturnIsUnaccounted(w: World, i: nat, n: nat, rules: seq<string>, p4: nat, p6: nat)
    requires Good(w, p4, p6) && Active(w, i, n) && AccountedFor(w, rules, n)
    ensures !AccountedFor(Proceed(w, GiveBack(i)), rules, n)
  {
    ActiveHasRules(w, i, n, rules);
    forall id: nat {
      NobodyElseActive(w, i, id, n, p4, p6);
    }
  }

  /** So does a removal that misses an interface. */
  lemma MissedInterfaceIsUnaccounted(w: World, e: Fixture, n: nat, table: seq<string>, p4: nat, p6: nat)
    requires Good(w, p4, p6) && Active(w, e.id, n) && AccountedFor(w, Only(table, Mark(n)), n)
    requires InOrder(w, e) && e.TearDown? && !Tidy(w, e)
    ensures !AccountedFor(Proceed(w, e), Only(ApplyNat(table, NatOf(w, e)[0]), Mark(n)), n)
  {
    EventOnly(table, NatOf(w, e)[0], Mark(n));
    LeftOver(ControllerOf(w.ledger.clients[e.id].asset), w.phases[e.id].outputs, e.outputs);
    forall id: nat {
      ActiveAfter(w, e, id, n, p4, p6);
    }
  }

  lemma UntidyIsUnaccounted(w: World, e: Fixture, table: seq<string>, p4: nat, p6: nat)
    requires Good(w, p4, p6) && Accounted(w, table) && !Tidy(w, e)
    ensures !Accounted(Proceed(w, e), RunNat(table, NatOf(w, e)))
  {
    var n := NamespaceIndex(w.ledger.clients[e.id].asset.networkIf);
    assert Active(w, e.id, n) && AccountedFor(w, Only(table, Mark(n)), n);
    if e.GiveBack? {
      EarlyReturnIsUnaccounted(w, e.id, n, Only(table, Mark(n)), p4, p6);
    } else {
      RunNatOne(table, NatOf(w, e)[0]);
      MissedInterfaceIsUnaccounted(w, e, n, table, p4, p6);
    }
  }

  /** A step leaves no rule without its run exactly when it is tidy. */
  lemma StepAccountedIff(w: World, e: Fixture, table: seq<string>, p4: nat, p6: nat)
    requires Good(w, p4, p6) && Accounted(w, table)
    ensures Accounted(Proceed(w, e), RunNat(table, NatOf(w, e))) <==> Tidy(w, e)
  {
    if Tidy(w, e) {
      StepKeepsAccounted(w, e, table, p4, p6);
    } else {
      UntidyIsUnaccounted(w, e, table, p4, p6);
    }
  }

  /** World and table after the first `k` steps. */
  ghost predicate AccountedAfter(w: World, es: seq<Fixture>, k: nat, table: seq<string>)
    requires k <= |es|
  {
    Accounted(RunAll(w, es[..k]), TableAfter(w, es[..k], table))
  }

  ghost predicate AlwaysAccounted(w: World, es: seq<Fixture>, table: seq<string>) {
    forall k | 0 <= k <= |es| :: AccountedAfter(w, es, k, table)
  }

  lemma AfterFirst(w: World, es: seq<Fixture>, k: nat, table: seq<string>)
    requires 0 < k <= |es|
    ensures AccountedAfter(w, es, k, table) <==>
      AccountedAfter(Proceed(w, es[0]), es[1..], k - 1, RunNat(table, NatOf(w, es[0])))
  {
    assert es[..k][0] == es[0] && es[..k][1..] == es[1..][..k - 1];
    RunNatConcat(table, NatOf(w, es[0]), NatEvents(Proceed(w, es[0]), es[1..][..k - 1]));
  }

  lemma AlwaysUnfold(w: World, es: seq<Fixture>, table: seq<string>)
    requires es != []
    ensures AlwaysAccounted(w, es, table) <==>
      Accounted(w, table) && AlwaysAccounted(Proceed(w, es[0]), es[1..], RunNat(table, NatOf(w, es[0])))
  {
    var v := Proceed(w, es[0]);
    var rest := es[1..];
    var next := RunNat(table, NatOf(w, es[0]));
    AtStart(w, es, table);
    forall k | 0 < k <= |es|
      ensures AccountedAfter(w, es, k, table) <==> AccountedAfter(v, rest, k - 1, next)
    {
      AfterFirst(w, es, k, table);
    }
    if AlwaysAccounted(w, es, table) {
      forall k | 0 <= k <= |rest|
        ensures AccountedAfter(v, rest, k, next)
      {
        assert AccountedAfter(w, es, k + 1, table);
      }
    }
  }

  /** At every moment of a run each rule belongs to the run that set it up,
      exactly when all steps are tidy. The last table alone does not tell: a
      later holder of the same name may remove what an earlier one left. */
  lemma {:induction false} AlwaysAccountedIff(w: World, es: seq<Fixture>, table: seq<string>, p4: nat, p6: nat)
    requires Good(w, p4, p6) && Accounted(w, table)
    ensures AlwaysAccounted(w, es, table) <==> TidyRun(w, es)
    decreases |es|
  {
    if es == [] {
      AtStart(w, es, table);
    } else {
      var v := Proceed(w, es[0]);
      var next := RunNat(table, NatOf(w, es[0]));
      AlwaysUnfold(w, es, table);
      StepKeepsGood(w, es[0], p4, p6);
      StepAccountedIff(w, es[0], table, p4, p6);
      AtStart(v, es[1..], next);
      if Accounted(v, next) {
        AlwaysAccountedIff(v, es[1..], next, p4, p6);
      }
    }
  }

  lemma AtStart(w: World, es: seq<Fixture>, table: seq<string>)
    ensures AccountedAfter(w, es, 0, table) <==> Accounted(w, table)
  {
    assert es[..0] == [];
  }

  lemma {:induction false} TidyRunsStayAccounted(w: World, es: seq<Fixture>, table: seq<string>, p4: nat, p6: nat)
    requires Good(w, p4, p6) && Accounted(w, table) && TidyRun(w, es)
    ensures Accounted(RunAll(w, es), TableAfter(w, es, table))
    ensures Foreign(TableAfter(w, es, table)) == Foreign(table)
    decreases |es|
  {
    if es != [] {
      var next := RunNat(table, NatOf(w, es[0]));
      StepKeepsGood(w, es[0], p4, p6);
      StepKeepsAccounted(w, es[0], table, p4, p6);
      TidyRunsStayAccounted(Proceed(w, es[0]), es[1..], next, p4, p6);
      RunNatConcat(table, NatOf(w, es[0]), NatEvents(Proceed(w, es[0]), es[1..]));
    }
  }

  lemma UnmarkedIsAccounted(w: World, table: seq<string>)
    requires forall p | p in w.phases :: !p.Natted?
    ensures Accounted(w, table) <==> forall r | r in table :: !Marked(r)
  {
    assert forall id: nat, n: nat :: !Active(w, id, n);
    forall n: nat
      ensures AccountedFor(w, Only(table, Mark(n)), n) <==> Only(table, Mark(n)) == []
      ensures Only(table, Mark(n)) == [] <==> forall r | r in table :: !RuleOf(r, Mark(n))
    {
      NoRuleOfMarkIff(table, Mark(n));
    }
  }

  lemma NoRuleOfMarkIff(table: seq<string>, mark: nat)
    ensures Only(table, mark) == [] <==> forall r | r in table :: !RuleOf(r, mark)
  {
    OnlyIs(table, mark);
    var only := Only(table, mark);
    assert only == [] || only[0] in only;
  }

  /** A whole session: every run that set rules up has removed them, for all
      default interfaces they were added for. Whatever the interleaving, the
      table is exactly the one the session started with. */
  lemma TidySessionRestoresTable(bases: seq<Asset>, es: seq<Fixture>, table: seq<string>, p4: nat, p6: nat)
    requires forall a | a in bases :: WellShaped(a, p4, p6) && Canonical(a.networkIf)
    requires forall r | r in table :: !Marked(r)
    requires TidyRun(FreshWorld(bases), es)
    requires forall p | p in RunAll(FreshWorld(bases), es).phases :: !p.Natted?
    ensures TableAfter(FreshWorld(bases), es, table) == table
  {
    var w := FreshWorld(bases);
    FreshWorldIsGood(bases, p4, p6);
    UnmarkedIsAccounted(w, table);
    TidyRunsStayAccounted(w, es, table, p4, p6);
    UnmarkedIsAccounted(RunAll(w, es), TableAfter(w, es, table));
    ForeignOnly(table);
    ForeignOnly(TableAfter(w, es, table));
  }

  /** The same from the start of a session, over any table without marks. */
  lemma SessionAccountedIff(bases: seq<Asset>, es: seq<Fixture>, table: seq<string>, p4: nat, p6: nat)
    requires forall a | a in bases :: WellShaped(a, p4, p6) && Canonical(a.networkIf)
    requires forall r | r in table :: !Marked(r)
    ensures AlwaysAccounted(FreshWorld(bases), es, table) <==> TidyRun(FreshWorld(bases), es)
  {
    FreshWorldIsGood(bases, p4, p6);
    UnmarkedIsAccounted(FreshWorld(bases), table);
    AlwaysAccountedIff(FreshWorld(bases), es, table, p4, p6);
  }

  // ---------- what an untidy run leaves ----------

  lemma GiveBackIsQuiet(w: World, i: nat, es: seq<Fixture>, table: seq<string>)
    ensures TableAfter(w, [GiveBack(i)] + es, table) == TableAfter(Proceed(w, GiveBack(i)), es, table)
  {
    var whole := [GiveBack(i)] + es;
    assert whole[0] == GiveBack(i) && whole[1..] == es;
    var rest := NatEvents(Proceed(w, GiveBack(i)), es);
    assert NatEvents(w, whole) == [] + rest == rest;
  }

  /** The rules left by giving an asset back too early stay as they are, under
      any steps of others, until one acts under their mark again. */
  lemma LeftRulesWait(w: World, i: nat, n: nat, es: seq<Fixture>, table: seq<string>)
    requires Active(w, i, n) && AccountedFor(w, Only(table, Mark(n)), n)
    requires forall e | e in NatEvents(Proceed(w, GiveBack(i)), es) :: Mark(e.c.nsIndex) != Mark(n)
    ensures Only(TableAfter(w, [GiveBack(i)] + es, table), Mark(n)) ==
      ApplyNat([], AddNatRules(ControllerOf(w.ledger.clients[i].asset), w.phases[i].outputs))
  {
    GiveBackIsQuiet(w, i, es, table);
    OthersNeverDelete(table, NatEvents(Proceed(w, GiveBack(i)), es), Mark(n));
  }

  /** The first asset a client takes from an empty file. */
  function FirstGet(a: Asset): Step {
    GetStep(Client(a, {}, [], []), [], [], [])
  }

  function FirstAsset(a: Asset): Asset {
    FirstGet(a).client.asset
  }

  /** Two tests with the same base asset. */
  lemma EarlyReturnStart(a: Asset, outputs: seq<string>) returns (held: World, natted: World, back: World)
    requires !FirstGet(a).raised
    ensures held == Proceed(FreshWorld([a, a]), Take(0, [], []))
    ensures natted == Proceed(held, SetUp(0, outputs))
    ensures back == Proceed(natted, GiveBack(0))
    ensures NatOf(FreshWorld([a, a]), Take(0, [], [])) == [] == NatOf(natted, GiveBack(0))
    ensures NatOf(held, SetUp(0, outputs)) == [AddNatRules(ControllerOf(FirstAsset(a)), outputs)]
    ensures back.ledger.entries == [] && back.phases == [Done, Fresh]
    ensures back.ledger.clients == [FirstGet(a).client.(taken := {}), Client(a, {}, [], [])]
  {
    var w := FreshWorld([a, a]);
    held := Proceed(w, Take(0, [], []));
    assert held.ledger.entries == [Entry(0, FirstAsset(a))];
    natted := Proceed(held, SetUp(0, outputs));
    NoneLeft(natted.ledger.entries, 0);
    back := Proceed(natted, GiveBack(0));
  }

  lemma RunThree(w: World, a: Fixture, b: Fixture, c: Fixture)
    ensures RunAll(w, [a, b, c]) == Proceed(Proceed(Proceed(w, a), b), c)
    ensures NatEvents(w, [a, b, c]) ==
      NatOf(w, a) + (NatOf(Proceed(w, a), b) + NatOf(Proceed(Proceed(w, a), b), c))
  {
    OneEvent(Proceed(Proceed(w, a), b), c);
    assert [a, b, c][1..] == [b, c] && [b, c][1..] == [c];
  }

  /** The failing side at a reachable state, from an empty table: the first test
      skips its removal, so the pool is empty again and the table is not, and a
      second test with the same base asset takes the same names and finds the
      rules of the first under its own mark. */
  lemma EarlyReturnLeavesRules(a: Asset, outputs: seq<string>)
    requires !FirstGet(a).raised
    ensures var es := [Take(0, [], []), SetUp(0, outputs), GiveBack(0)];
      var left := RunAll(FreshWorld([a, a]), es);
      var table := TableAfter(FreshWorld([a, a]), es, []);
      && left.ledger.entries == []
      && MarkRule(MarkOf(FirstAsset(a)), FirstAsset(a).networkIf) in table
      && var next := Proceed(left, Take(1, [], []));
      && Holds(next, 1) && 1 < |next.ledger.clients| && next.ledger.clients[1].asset == FirstAsset(a)
      && NatOf(left, Take(1, [], [])) == []
  {
    var held, natted, back := EarlyReturnStart(a, outputs);
    RunThree(FreshWorld([a, a]), Take(0, [], []), SetUp(0, outputs), GiveBack(0));
    FirstBridgeMarked(FirstAsset(a), outputs);
    RunNatOne([], AddNatRules(ControllerOf(FirstAsset(a)), outputs));
    var events := [AddNatRules(ControllerOf(FirstAsset(a)), outputs)];
    assert [] + (events + []) == events;
  }
}
