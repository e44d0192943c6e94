/** NatController: packet marks derived from allocated bridge names and the
    iptables rules of several runs in one table. */
module Nat {
  import opened Sequences
  import opened Text
  import opened NetworkAssets
  import opened AssetRuns

  // ---------- from bridge name to mark ----------

  /** int() of the group of ^tt(\d+)$, where `$` also matches before a final
      newline; 0 when the name does not match. */
  function NamespaceIndex(libvirtNetworkIf: string): nat {
    var n := |libvirtNetworkIf|;
    var name := if n > 0 && libvirtNetworkIf[n - 1] == '\n' then libvirtNetworkIf[..n - 1] else libvirtNetworkIf;
    if "tt" <= name && |name| > 2 && AllDigits(name[2..]) then Number(name[2..]) else 0
  }

  function Mark(nsIndex: nat): nat {
    555 + nsIndex
  }

  /** The index the bridge search wrote into the name comes back. */
  lemma IndexOfBridgeName(n: nat)
    ensures NamespaceIndex(BridgeName("tt", n)) == n
  {
    var name := BridgeName("tt", n);
    assert name[2..] == Decimal(n);
    assert name[|name| - 1] == Decimal(n)[|Decimal(n)| - 1];
    assert IsDigit(name[|name| - 1]);
    NumberOfDecimal(n);
  }

  ghost predicate Canonical(name: string) {
    exists n: nat :: name == BridgeName("tt", n)
  }

  lemma CanonicalNamesMarkedApart(a: string, b: string)
    requires Canonical(a) && Canonical(b)
    ensures Mark(NamespaceIndex(a)) == Mark(NamespaceIndex(b)) <==> a == b
  {
    var m: nat :| a == BridgeName("tt", m);
    var n: nat :| b == BridgeName("tt", n);
    IndexOfBridgeName(m);
    IndexOfBridgeName(n);
  }

  /** Of the names the search writes exactly one has the mark of `b`. So `b`
      shares its mark with another of them exactly when it is not one itself. */
  lemma SharesAMarkIff(b: string)
    ensures forall a | Canonical(a) ::
      Mark(NamespaceIndex(a)) == Mark(NamespaceIndex(b)) <==> a == BridgeName("tt", NamespaceIndex(b))
    ensures (exists a: string :: Canonical(a) && a != b && Mark(NamespaceIndex(a)) == Mark(NamespaceIndex(b))) <==>
      !Canonical(b)
  {
    var partner := BridgeName("tt", NamespaceIndex(b));
    IndexOfBridgeName(NamespaceIndex(b));
    assert Canonical(partner);
    forall a | Canonical(a)
      ensures Mark(NamespaceIndex(a)) == Mark(NamespaceIndex(partner)) <==> a == partner
    {
      CanonicalNamesMarkedApart(a, partner);
    }
    if Canonical(b) {
      CanonicalNamesMarkedApart(partner, b);
    }
  }

  /** Names outside that form, at inputs: padded, of another prefix, or with a
      final newline. */
  lemma PaddedNameSharesMark()
    ensures NamespaceIndex("tt01") == NamespaceIndex("tt1") == 1
    ensures NamespaceIndex("stt1") == NamespaceIndex("tt0") == 0
    ensures NamespaceIndex("tt1\n") == 1
  {
    assert "tt1\n"[..3] == "tt1";
    assert "tt01"[2..] == "01" && "01"[..1] == "0" && "0"[..0] == "";
    assert "tt1"[2..] == "1" && "1"[..0] == "";
    assert "tt0"[2..] == "0";
    assert Number("0") == 0 && Number("1") == 1 && Number("01") == 1;
    assert !("tt" <= "stt1") by { assert "stt1"[0] != "tt"[0]; }
  }

  ghost predicate CanonicalNames(s: State) {
    && (forall a | a in s.file :: Canonical(a.networkIf))
    && (forall c | c in s.clients :: Canonical(c.asset.networkIf))
  }

  lemma StepKeepsCanonicalNames(s: State, e: Event)
    requires CanonicalNames(s)
    ensures CanonicalNames(Apply(s, e))
  {
    if e.id < |s.clients| {
      var c := s.clients[e.id];
      if e.Get? {
        var step := ClientStep(c, s.file, e);
        var bridges := c.bridges + BridgesOf(s.file) + e.seenBridges;
        assert NextBridge("tt", bridges) == BridgeName("tt", NextBridgeIndex("tt", bridges, 0));
        assert Canonical(step.client.asset.networkIf);
      } else {
        KeepFields(s.file, c.taken);
        assert Canonical(c.asset.networkIf);
      }
    }
  }

  lemma {:induction false} RunKeepsCanonicalNames(s: State, es: seq<Event>)
    requires CanonicalNames(s)
    ensures CanonicalNames(Run(s, es))
    decreases |es|
  {
    if es != [] {
      StepKeepsCanonicalNames(s, es[0]);
      RunKeepsCanonicalNames(Apply(s, es[0]), es[1..]);
    }
  }

  lemma {:induction false} PrimaryNamesDiffer(file: seq<Asset>, i: nat, j: nat)
    requires Distinct(BridgesOf(file)) && i < j < |file|
    ensures file[i].networkIf != file[j].networkIf
  {
    var head := [file[0].networkIf, file[0].secondaryIf];
    DistinctConcat(head, BridgesOf(file[1..]));
    if i == 0 {
      AssetFieldsListed(file[1..], j - 1);
      assert head[0] in head;
    } else {
      PrimaryNamesDiffer(file[1..], i - 1, j - 1);
    }
  }

  /** In every reachable state of the pool, assets held at the same time carry
      different marks. */
  lemma HeldAssetsMarkedApart(s: State, es: seq<Event>, p4: nat, p6: nat, i: nat, j: nat)
    requires Sound(s, p4, p6) && CanonicalNames(s)
    requires i < j < |Run(s, es).file|
    ensures var file := Run(s, es).file;
      Mark(NamespaceIndex(file[i].networkIf)) != Mark(NamespaceIndex(file[j].networkIf))
  {
    var file := Run(s, es).file;
    EveryRunKeepsAssetsApart(s, es, p4, p6);
    RunKeepsCanonicalNames(s, es);
    PrimaryNamesDiffer(file, i, j);
    CanonicalNamesMarkedApart(file[i].networkIf, file[j].networkIf);
  }

  // ---------- rules ----------

  function MarkRule(mark: nat, inputInterface: string): string {
    "PREROUTING -i " + inputInterface + " -j MARK --set-mark " + Decimal(mark)
  }

  function NatRule(mark: nat, outputInterface: string): string {
    "POSTROUTING -m mark --mark " + Decimal(mark) + " -o " + outputInterface + " -j MASQUERADE"
  }

  ghost predicate RuleOf(rule: string, mark: nat) {
    exists i: string :: rule == MarkRule(mark, i) || rule == NatRule(mark, i)
  }

  lemma MarkRuleDigits(mark: nat, i: string)
    ensures DigitSuffix(MarkRule(mark, i)) == Decimal(mark)
    ensures |MarkRule(mark, i)| > 1 && MarkRule(mark, i)[1] == 'R'
  {
    var pre := "PREROUTING -i " + i + " -j MARK --set-mark ";
    assert pre[|pre| - 1] == ' ';
    DigitSuffixOf(pre, Decimal(mark));
  }

  lemma NatRuleDigits(mark: nat, o: string)
    ensures var head := |"POSTROUTING -m mark --mark "|;
      |NatRule(mark, o)| > head && DigitPrefix(NatRule(mark, o)[head..]) == Decimal(mark)
    ensures NatRule(mark, o)[1] == 'O'
  {
    var head := "POSTROUTING -m mark --mark ";
    var rest := " -o " + o + " -j MASQUERADE";
    assert NatRule(mark, o) == head + (Decimal(mark) + rest);
    assert rest[0] == ' ';
    DigitPrefixOf(Decimal(mark), rest);
  }

  /** The text of a rule determines its mark, whatever the interface names. */
  lemma RuleHasOneMark(rule: string, m: nat, n: nat)
    requires RuleOf(rule, m) && RuleOf(rule, n)
    ensures m == n
  {
    var i: string :| rule == MarkRule(m, i) || rule == NatRule(m, i);
    var j: string :| rule == MarkRule(n, j) || rule == NatRule(n, j);
    MarkRuleDigits(m, i);
    MarkRuleDigits(n, j);
    NatRuleDigits(m, i);
    NatRuleDigits(n, j);
    DecimalInjective(m, n);
  }

  lemma NatRuleInjective(mark: nat, o: string, p: string)
    requires NatRule(mark, o) == NatRule(mark, p)
    ensures o == p
  {
    var head := "POSTROUTING -m mark --mark " + Decimal(mark) + " -o ";
    var tail := " -j MASQUERADE";
    assert NatRule(mark, o) == head + o + tail && NatRule(mark, p) == head + p + tail;
    assert (head + o + tail)[|head|..|head| + |o|] == o;
    assert (head + p + tail)[|head|..|head| + |p|] == p;
  }

  /** The rule marks packets that come in on interface `i`. */
  predicate Marks(rule: string, i: string, mark: nat) {
    "PREROUTING " <= rule && Occurs("-i " + i + " -j MARK --set-mark " + Decimal(mark), rule)
  }

  /** The rule masquerades marked packets that go out on interface `o`. */
  predicate Masquerades(rule: string, o: string, mark: nat) {
    "POSTROUTING " <= rule && Occurs("--mark " + Decimal(mark) + " -o " + o + " -j MASQUERADE", rule)
  }

  lemma TailOccurs(head: string, tail: string, rule: string)
    requires rule == head + tail
    ensures head <= rule && Occurs(tail, rule)
  {
    assert OccursAt(tail, rule, |head|);
  }

  lemma RuleTexts(mark: nat, i: string)
    ensures Marks(MarkRule(mark, i), i, mark)
    ensures Masquerades(NatRule(mark, i), i, mark)
  {
    MarkText("PREROUTING ", "-i ", i, " -j MARK --set-mark ", Decimal(mark));
    assert "PREROUTING " + "-i " == "PREROUTING -i ";
    NatText("POSTROUTING ", "-m mark ", "--mark ", Decimal(mark), " -o ", i, " -j MASQUERADE");
    assert "POSTROUTING " + "-m mark " + "--mark " == "POSTROUTING -m mark --mark ";
  }

  lemma MarkText(head: string, opt: string, i: string, mid: string, d: string)
    ensures var rule := (head + opt) + i + mid + d;
      head <= rule && Occurs(opt + i + mid + d, rule)
  {
    assert (head + opt) + i + mid + d == head + (opt + i + mid + d);
    TailOccurs(head, opt + i + mid + d, (head + opt) + i + mid + d);
  }

  lemma NatText(head: string, match_: string, opt: string, d: string, mid: string, o: string, tail: string)
    ensures var rule := (head + match_ + opt) + d + mid + o + tail;
      head <= rule && Occurs(opt + d + mid + o + tail, rule)
  {
    assert (head + match_ + opt) + d + mid + o + tail == (head + match_) + (opt + d + mid + o + tail);
    TailOccurs(head + match_, opt + d + mid + o + tail, (head + match_ + opt) + d + mid + o + tail);
  }

  lemma MarkRuleInjective(mark: nat, i: string, j: string)
    requires MarkRule(mark, i) == MarkRule(mark, j)
    ensures i == j
  {
    var head := "PREROUTING -i ";
    var tail := " -j MARK --set-mark " + Decimal(mark);
    assert MarkRule(mark, i) == head + i + tail && MarkRule(mark, j) == head + j + tail;
    assert (head + i + tail)[|head|..|head| + |i|] == i;
    assert (head + j + tail)[|head|..|head| + |j|] == j;
  }

  // ---------- the table ----------

  function AddRule(table: seq<string>, rule: string): seq<string> {
    if rule in table then table else [rule] + table
  }

  /** Deletes the first match. */
  function RemoveRule(table: seq<string>, rule: string): seq<string> {
    if table == [] then []
    else if table[0] == rule then table[1..]
    else [table[0]] + RemoveRule(table[1..], rule)
  }

  function AddAll(table: seq<string>, rules: seq<string>): seq<string>
    decreases |rules|
  {
    if rules == [] then table else AddAll(AddRule(table, rules[0]), rules[1..])
  }

  function RemoveAll(table: seq<string>, rules: seq<string>): seq<string>
    decreases |rules|
  {
    if rules == [] then table else RemoveAll(RemoveRule(table, rules[0]), rules[1..])
  }

  function MarkRules(mark: nat, inputs: seq<string>): seq<string> {
    seq(|inputs|, i requires 0 <= i < |inputs| => MarkRule(mark, inputs[i]))
  }

  function NatRules(mark: nat, outputs: seq<string>): seq<string> {
    seq(|outputs|, i requires 0 <= i < |outputs| => NatRule(mark, outputs[i]))
  }

  datatype Controller = Controller(inputs: seq<string>, nsIndex: nat)

  /** A set-up or tear-down of one run; `outputs` are the interfaces that hold a
      default route at that moment. */
  datatype NatEvent =
    | AddNatRules(c: Controller, outputs: seq<string>)
    | RemoveNatRules(c: Controller, outputs: seq<string>)

  function ApplyNat(table: seq<string>, e: NatEvent): seq<string> {
    var mark := Mark(e.c.nsIndex);
    match e
    case AddNatRules(c, outputs) => AddAll(table, NatRules(mark, outputs) + MarkRules(mark, c.inputs))
    case RemoveNatRules(c, outputs) => RemoveAll(table, MarkRules(mark, c.inputs) + NatRules(mark, outputs))
  }

  function RunNat(table: seq<string>, es: seq<NatEvent>): seq<string>
    decreases |es|
  {
    if es == [] then table else RunNat(ApplyNat(table, es[0]), es[1..])
  }

  /** The table with the rules of one mark left out. */
  ghost function Without(table: seq<string>, mark: nat): seq<string> {
    if table == [] then []
    else if RuleOf(table[0], mark) then Without(table[1..], mark)
    else [table[0]] + Without(table[1..], mark)
  }

  // ---------- the loops over a shared table ----------

  class IpTables {
    var rules: seq<string>

    constructor (rules: seq<string>)
      ensures this.rules == rules
    {
      this.rules := rules;
    }

    /** `--check`, then `--insert` at the head of the chain. */
    method Add(rule: string)
      modifies this
      ensures rules == AddRule(old(rules), rule)
    {
      if rule !in rules {
        rules := [rule] + rules;
      }
    }

    /** `--check`, then `--delete` of the first match. */
    method Remove(rule: string)
      modifies this
      ensures rules == RemoveRule(old(rules), rule)
    {
      if rule in rules {
        var i := 0;
        while rules[i] != rule
          invariant i < |rules| && rule !in rules[..i]
          invariant RemoveRule(rules, rule) == rules[..i] + RemoveRule(rules[i..], rule)
          decreases |rules| - i
        {
          assert rules[i..][1..] == rules[i + 1..];
          assert rule in rules[i + 1..] by {
            var k :| 0 <= k < |rules| && rules[k] == rule;
            assert rules[i + 1..][k - (i + 1)] == rule;
          }
          i := i + 1;
        }
        rules := rules[..i] + rules[i + 1..];
      } else {
        RemoveAbsent(rules, rule);
      }
    }
  }

  lemma {:induction false} RemoveAbsent(table: seq<string>, rule: string)
    requires rule !in table
    ensures RemoveRule(table, rule) == table
  {
    if table != [] { RemoveAbsent(table[1..], rule); }
  }

  lemma {:induction false} AddAllConcat(table: seq<string>, xs: seq<string>, ys: seq<string>)
    ensures AddAll(table, xs + ys) == AddAll(AddAll(table, xs), ys)
    decreases |xs|
  {
    if xs == [] {
      assert xs + ys == ys;
    } else {
      assert (xs + ys)[0] == xs[0] && (xs + ys)[1..] == xs[1..] + ys;
      AddAllConcat(AddRule(table, xs[0]), xs[1..], ys);
    }
  }

  lemma {:induction false} RemoveAllConcat(table: seq<string>, xs: seq<string>, ys: seq<string>)
    ensures RemoveAll(table, xs + ys) == RemoveAll(RemoveAll(table, xs), ys)
    decreases |xs|
  {
    if xs == [] {
      assert xs + ys == ys;
    } else {
      assert (xs + ys)[0] == xs[0] && (xs + ys)[1..] == xs[1..] + ys;
      RemoveAllConcat(RemoveRule(table, xs[0]), xs[1..], ys);
    }
  }

  // ---------- what set-up and tear-down do to the table ----------

  lemma OwnRules(own: nat, inputs: seq<string>, outputs: seq<string>)
    ensures forall r | r in MarkRules(own, inputs) + NatRules(own, outputs) :: RuleOf(r, own)
    ensures forall r | r in NatRules(own, outputs) + MarkRules(own, inputs) :: RuleOf(r, own)
  {
    var nats := NatRules(own, outputs);
    var marks := MarkRules(own, inputs);
    forall r | r in nats || r in marks
      ensures RuleOf(r, own)
    {
      if r in nats {
        var i :| 0 <= i < |nats| && nats[i] == r;
        assert r == NatRule(own, outputs[i]);
      } else {
        var i :| 0 <= i < |marks| && marks[i] == r;
        assert r == MarkRule(own, inputs[i]);
      }
    }
  }

  lemma RulesMembers(mark: nat, inputs: seq<string>, outputs: seq<string>)
    ensures forall r :: r in MarkRules(mark, inputs) <==> exists i | i in inputs :: r == MarkRule(mark, i)
    ensures forall o :: NatRule(mark, o) in NatRules(mark, outputs) <==> o in outputs
    ensures forall o :: NatRule(mark, o) !in MarkRules(mark, inputs)
    ensures forall r | r in NatRules(mark, outputs) :: exists o | o in outputs :: r == NatRule(mark, o)
  {
    var marks := MarkRules(mark, inputs);
    var nats := NatRules(mark, outputs);
    assert forall i | 0 <= i < |inputs| :: marks[i] == MarkRule(mark, inputs[i]);
    assert forall i | 0 <= i < |outputs| :: nats[i] == NatRule(mark, outputs[i]);
    forall o
      ensures NatRule(mark, o) in nats <==> o in outputs
      ensures NatRule(mark, o) !in marks
    {
      if NatRule(mark, o) in nats {
        var i :| 0 <= i < |nats| && nats[i] == NatRule(mark, o);
        NatRuleInjective(mark, o, outputs[i]);
      }
      if o in outputs {
        var i :| 0 <= i < |outputs| && outputs[i] == o;
        assert nats[i] in nats;
      }
      NatRuleDigits(mark, o);
      forall i | 0 <= i < |marks|
        ensures marks[i] != NatRule(mark, o)
      {
        MarkRuleDigits(mark, inputs[i]);
      }
    }
    forall i | i in inputs
      ensures MarkRule(mark, i) in marks
    {
      var k :| 0 <= k < |inputs| && inputs[k] == i;
      assert marks[k] in marks;
    }
  }

  /** The first match goes, and nothing else. */
  lemma {:induction false} RemoveRuleIs(table: seq<string>, rule: string) returns (i: nat)
    ensures i <= |table| && rule !in table[..i]
    ensures rule in table ==>
      i < |table| && table[i] == rule && RemoveRule(table, rule) == table[..i] + table[i + 1..]
    ensures rule !in table ==> RemoveRule(table, rule) == table
  {
    if table == [] || table[0] == rule {
      i := 0;
    } else {
      var j := RemoveRuleIs(table[1..], rule);
      i := j + 1;
      assert table[..i] == [table[0]] + table[1..][..j];
      if rule in table {
        assert table[i + 1..] == table[1..][j + 1..];
      }
    }
  }

  function Reversed(s: seq<string>): seq<string> {
    if s == [] then [] else Reversed(s[1..]) + [s[0]]
  }

  /** New rules stand before the old ones, the last one first. */
  lemma {:induction false} AddedAtTheHead(table: seq<string>, rules: seq<string>)
    requires Distinct(rules) && forall r | r in rules :: r !in table
    ensures AddAll(table, rules) == Reversed(rules) + table
    decreases |rules|
  {
    if rules != [] {
      assert rules == [rules[0]] + rules[1..];
      DistinctCons(rules[0], rules[1..]);
      AddedAtTheHead([rules[0]] + table, rules[1..]);
      ConcatAssoc(Reversed(rules[1..]), [rules[0]], table);
    }
  }

  /** Old rules stay where they are, behind new ones, none of which is old. */
  lemma {:induction false} AddedBefore(table: seq<string>, rules: seq<string>) returns (added: seq<string>)
    ensures AddAll(table, rules) == added + table
    ensures forall r | r in added :: r in rules && r !in table
    ensures forall r | r in rules :: r in added || r in table
    decreases |rules|
  {
    if rules == [] {
      added := [];
    } else {
      var later := AddedBefore(AddRule(table, rules[0]), rules[1..]);
      if rules[0] in table {
        added := later;
      } else {
        added := later + [rules[0]];
        ConcatAssoc(later, [rules[0]], table);
      }
      assert forall r :: r in rules <==> r == rules[0] || r in rules[1..];
    }
  }

  lemma AddedParts(table: seq<string>, xs: seq<string>, ys: seq<string>) returns (added: seq<string>)
    ensures AddAll(table, xs + ys) == added + table
    ensures forall r | r in xs :: r in added + table
    ensures forall r | r in ys :: r in added + table
    ensures forall r | r in added :: r !in table
    ensures forall r | r in added :: r in xs || r in ys
  {
    added := AddedBefore(table, xs + ys);
    assert forall r | r in xs || r in ys :: r in xs + ys;
  }

  ghost predicate InputsMarked(rules: seq<string>, inputs: seq<string>, mark: nat) {
    forall i | i in inputs :: exists r | r in rules :: Marks(r, i, mark)
  }

  ghost predicate OutputsMasqueraded(rules: seq<string>, outputs: seq<string>, mark: nat) {
    forall o | o in outputs :: exists r | r in rules :: Masquerades(r, o, mark)
  }

  ghost predicate ServesOneOf(rule: string, inputs: seq<string>, outputs: seq<string>, mark: nat) {
    (exists i | i in inputs :: Marks(rule, i, mark)) || (exists o | o in outputs :: Masquerades(rule, o, mark))
  }

  lemma AddedServe(added: seq<string>, inputs: seq<string>, outputs: seq<string>, mark: nat)
    requires forall r | r in added :: r in NatRules(mark, outputs) || r in MarkRules(mark, inputs)
    ensures forall r | r in added :: ServesOneOf(r, inputs, outputs, mark)
  {
    forall r | r in added
      ensures ServesOneOf(r, inputs, outputs, mark)
    {
      RuleServes(mark, inputs, outputs, r);
    }
  }

  lemma SetUpCovers(all: seq<string>, added: seq<string>, inputs: seq<string>, outputs: seq<string>, mark: nat)
    requires forall r | r in NatRules(mark, outputs) :: r in all
    requires forall r | r in MarkRules(mark, inputs) :: r in all
    requires forall r | r in added :: r in NatRules(mark, outputs) || r in MarkRules(mark, inputs)
    ensures InputsMarked(all, inputs, mark) && OutputsMasqueraded(all, outputs, mark)
    ensures forall r | r in added :: ServesOneOf(r, inputs, outputs, mark)
  {
    InputRules(all, mark, inputs);
    OutputRules(all, mark, outputs);
    AddedServe(added, inputs, outputs, mark);
  }

  /** There is a rule for every input and every output interface; what is new is
      such a rule and stands before all that was there. */
  ghost predicate IsSetUp(before: seq<string>, after: seq<string>, inputs: seq<string>, outputs: seq<string>, mark: nat) {
    && InputsMarked(after, inputs, mark) && OutputsMasqueraded(after, outputs, mark)
    && |before| <= |after|
    && after[|after| - |before|..] == before
    && forall r | r in after[..|after| - |before|] :: r !in before && ServesOneOf(r, inputs, outputs, mark)
  }

  lemma AddedIsSetUp(table: seq<string>, inputs: seq<string>, outputs: seq<string>, mark: nat)
    ensures IsSetUp(table, AddAll(table, NatRules(mark, outputs) + MarkRules(mark, inputs)), inputs, outputs, mark)
  {
    var added := AddedParts(table, NatRules(mark, outputs), MarkRules(mark, inputs));
    var all := added + table;
    assert all[..|added|] == added && all[|added|..] == table;
    SetUpCovers(all, added, inputs, outputs, mark);
  }

  /** A set-up serves all its interfaces, under 555 plus the index. */
  lemma SetUpCoversInterfaces(table: seq<string>, c: Controller, outputs: seq<string>)
    ensures IsSetUp(table, ApplyNat(table, AddNatRules(c, outputs)), c.inputs, outputs, 555 + c.nsIndex)
  {
    AddedIsSetUp(table, c.inputs, outputs, Mark(c.nsIndex));
  }

  lemma InputRules(rules: seq<string>, mark: nat, inputs: seq<string>)
    requires forall r | r in MarkRules(mark, inputs) :: r in rules
    ensures InputsMarked(rules, inputs, mark)
  {
    forall i | i in inputs
      ensures exists r | r in rules :: Marks(r, i, mark)
    {
      var k :| 0 <= k < |inputs| && inputs[k] == i;
      RuleTexts(mark, i);
      assert MarkRules(mark, inputs)[k] == MarkRule(mark, i);
    }
  }

  lemma OutputRules(rules: seq<string>, mark: nat, outputs: seq<string>)
    requires forall r | r in NatRules(mark, outputs) :: r in rules
    ensures OutputsMasqueraded(rules, outputs, mark)
  {
    forall o | o in outputs
      ensures exists r | r in rules :: Masquerades(r, o, mark)
    {
      var k :| 0 <= k < |outputs| && outputs[k] == o;
      RuleTexts(mark, o);
      assert NatRules(mark, outputs)[k] == NatRule(mark, o);
    }
  }

  lemma RuleServes(mark: nat, inputs: seq<string>, outputs: seq<string>, r: string)
    requires r in MarkRules(mark, inputs) || r in NatRules(mark, outputs)
    ensures ServesOneOf(r, inputs, outputs, mark)
  {
    if r in MarkRules(mark, inputs) {
      var k :| 0 <= k < |inputs| && MarkRules(mark, inputs)[k] == r;
      RuleTexts(mark, inputs[k]);
      assert inputs[k] in inputs;
    } else {
      var k :| 0 <= k < |outputs| && NatRules(mark, outputs)[k] == r;
      RuleTexts(mark, outputs[k]);
      assert outputs[k] in outputs;
    }
  }

  /** Different interfaces get rules of their own: on a table without the mark a
      set-up adds as many as there are interfaces. */
  lemma SetUpAddsOneEach(table: seq<string>, c: Controller, outputs: seq<string>)
    requires Distinct(c.inputs) && Distinct(outputs)
    requires forall r | r in table :: !RuleOf(r, Mark(c.nsIndex))
    ensures |ApplyNat(table, AddNatRules(c, outputs))| == |table| + |c.inputs| + |outputs|
  {
    var mark := Mark(c.nsIndex);
    var rules := NatRules(mark, outputs) + MarkRules(mark, c.inputs);
    OwnRules(mark, c.inputs, outputs);
    RulesDistinct(mark, c.inputs, outputs);
    AddedAtTheHead(table, rules);
    ReversedLength(rules);
  }

  lemma {:induction false} ReversedLength(s: seq<string>)
    ensures |Reversed(s)| == |s|
  {
    if s != [] { ReversedLength(s[1..]); }
  }

  lemma RulesDistinct(mark: nat, inputs: seq<string>, outputs: seq<string>)
    requires Distinct(inputs) && Distinct(outputs)
    ensures Distinct(NatRules(mark, outputs) + MarkRules(mark, inputs))
  {
    var nats := NatRules(mark, outputs);
    var marks := MarkRules(mark, inputs);
    forall i, j | 0 <= i < j < |nats|
      ensures nats[i] != nats[j]
    {
      if nats[i] == nats[j] { NatRuleInjective(mark, outputs[i], outputs[j]); }
    }
    forall i, j | 0 <= i < j < |marks|
      ensures marks[i] != marks[j]
    {
      if marks[i] == marks[j] { MarkRuleInjective(mark, inputs[i], inputs[j]); }
    }
    forall r | r in nats
      ensures r !in marks
    {
      RulesMembers(mark, inputs, outputs);
    }
    DistinctConcat(nats, marks);
  }

  // ---------- the controller's loops ----------

  lemma AddAllNext(table: seq<string>, rules: seq<string>, i: nat)
    requires i < |rules|
    ensures AddAll(table, rules[..i + 1]) == AddRule(AddAll(table, rules[..i]), rules[i])
  {
    assert rules[..i] + [rules[i]] == rules[..i + 1];
    AddAllConcat(table, rules[..i], [rules[i]]);
    assert [rules[i]][1..] == [];
  }

  lemma RemoveAllNext(table: seq<string>, rules: seq<string>, i: nat)
    requires i < |rules|
    ensures RemoveAll(table, rules[..i + 1]) == RemoveRule(RemoveAll(table, rules[..i]), rules[i])
  {
    assert rules[..i] + [rules[i]] == rules[..i + 1];
    RemoveAllConcat(table, rules[..i], [rules[i]]);
    assert [rules[i]][1..] == [];
  }

  class NatController {
    const c: Controller

    constructor (inputs: seq<string>, nsIndex: nat)
      ensures c == Controller(inputs, nsIndex)
    {
      c := Controller(inputs, nsIndex);
    }

    method AddRules(table: IpTables, outputs: seq<string>)
      modifies table
      ensures table.rules == ApplyNat(old(table.rules), AddNatRules(c, outputs))
      ensures IsSetUp(old(table.rules), table.rules, c.inputs, outputs, 555 + c.nsIndex)
    {
      SetUpCoversInterfaces(table.rules, c, outputs);
      var mark := Mark(c.nsIndex);
      ghost var nats, marks := NatRules(mark, outputs), MarkRules(mark, c.inputs);
      AddAllConcat(table.rules, nats, marks);
      for i := 0 to |outputs|
        invariant table.rules == AddAll(old(table.rules), nats[..i])
      {
        AddAllNext(old(table.rules), nats, i);
        table.Add(NatRule(mark, outputs[i]));
      }
      ghost var between := table.rules;
      assert nats[..|nats|] == nats;
      for i := 0 to |c.inputs|
        invariant table.rules == AddAll(between, marks[..i])
      {
        AddAllNext(between, marks, i);
        table.Add(MarkRule(mark, c.inputs[i]));
      }
      assert marks[..|marks|] == marks;
    }

    method RemoveRules(table: IpTables, outputs: seq<string>)
      modifies table
      ensures table.rules == ApplyNat(old(table.rules), RemoveNatRules(c, outputs))
    {
      var mark := Mark(c.nsIndex);
      ghost var marks, nats := MarkRules(mark, c.inputs), NatRules(mark, outputs);
      RemoveAllConcat(table.rules, marks, nats);
      for i := 0 to |c.inputs|
        invariant table.rules == RemoveAll(old(table.rules), marks[..i])
      {
        RemoveAllNext(old(table.rules), marks, i);
        table.Remove(MarkRule(mark, c.inputs[i]));
      }
      ghost var between := table.rules;
      assert marks[..|marks|] == marks;
      for i := 0 to |outputs|
        invariant table.rules == RemoveAll(between, nats[..i])
      {
        RemoveAllNext(between, nats, i);
        table.Remove(NatRule(mark, outputs[i]));
      }
      assert nats[..|nats|] == nats;
    }
  }

  // ---------- runs with different marks do not disturb each other ----------

  lemma {:induction false} WithoutIs(table: seq<string>, mark: nat)
    ensures forall r :: r in Without(table, mark) <==> r in table && !RuleOf(r, mark)
  {
    if table != [] {
      WithoutIs(table[1..], mark);
      assert forall r :: r in table <==> r == table[0] || r in table[1..];
    }
  }

  lemma WithoutAdd(table: seq<string>, rule: string, mark: nat)
    ensures Without(AddRule(table, rule), mark) ==
      if RuleOf(rule, mark) then Without(table, mark) else AddRule(Without(table, mark), rule)
  {
    WithoutIs(table, mark);
    assert ([rule] + table)[1..] == table;
  }

  lemma {:induction false} WithoutRemove(table: seq<string>, rule: string, mark: nat)
    ensures Without(RemoveRule(table, rule), mark) ==
      if RuleOf(rule, mark) then Without(table, mark) else RemoveRule(Without(table, mark), rule)
  {
    if table != [] && table[0] != rule {
      WithoutRemove(table[1..], rule, mark);
      var rest := RemoveRule(table[1..], rule);
      assert ([table[0]] + rest)[1..] == rest;
    }
  }

  lemma {:induction false} WithoutAddAll(table: seq<string>, rules: seq<string>, mark: nat, own: nat)
    requires forall r | r in rules :: RuleOf(r, own)
    ensures Without(AddAll(table, rules), mark) ==
      if own == mark then Without(table, mark) else AddAll(Without(table, mark), rules)
    decreases |rules|
  {
    if rules != [] {
      WithoutAdd(table, rules[0], mark);
      WithoutAddAll(AddRule(table, rules[0]), rules[1..], mark, own);
      if RuleOf(rules[0], mark) { RuleHasOneMark(rules[0], mark, own); }
    }
  }

  lemma {:induction false} WithoutRemoveAll(table: seq<string>, rules: seq<string>, mark: nat, own: nat)
    requires forall r | r in rules :: RuleOf(r, own)
    ensures Without(RemoveAll(table, rules), mark) ==
      if own == mark then Without(table, mark) else RemoveAll(Without(table, mark), rules)
    decreases |rules|
  {
    if rules != [] {
      WithoutRemove(table, rules[0], mark);
      WithoutRemoveAll(RemoveRule(table, rules[0]), rules[1..], mark, own);
      if RuleOf(rules[0], mark) { RuleHasOneMark(rules[0], mark, own); }
    }
  }

  /** One event seen without the rules of `mark`: an event of that mark is
      invisible, any other acts as if those rules were not there. */
  lemma EventWithout(table: seq<string>, e: NatEvent, mark: nat)
    ensures Without(ApplyNat(table, e), mark) ==
      if Mark(e.c.nsIndex) == mark then Without(table, mark) else ApplyNat(Without(table, mark), e)
  {
    var own := Mark(e.c.nsIndex);
    var nats := NatRules(own, e.outputs);
    var marks := MarkRules(own, e.c.inputs);
    OwnRules(own, e.c.inputs, e.outputs);
    if e.AddNatRules? {
      WithoutAddAll(table, nats + marks, mark, own);
    } else {
      WithoutRemoveAll(table, marks + nats, mark, own);
    }
  }

  /** No run ever deletes, adds or reorders a rule of another mark, and what a
      run does never depends on the rules of another mark. */
  lemma {:induction false} RunsDoNotInterfere(table: seq<string>, es: seq<NatEvent>, mark: nat)
    requires forall i | 0 <= i < |es| :: Mark(es[i].c.nsIndex) != mark
    ensures Without(RunNat(table, es), mark) == RunNat(Without(table, mark), es)
    decreases |es|
  {
    if es != [] {
      EventWithout(table, es[0], mark);
      RunsDoNotInterfere(ApplyNat(table, es[0]), es[1..], mark);
    }
  }

  // ---------- set-up, other runs, tear-down ----------

  ghost function Only(table: seq<string>, mark: nat): seq<string> {
    if table == [] then []
    else if RuleOf(table[0], mark) then [table[0]] + Only(table[1..], mark)
    else Only(table[1..], mark)
  }

  lemma {:induction false} OnlyIs(table: seq<string>, mark: nat)
    ensures forall r :: r in Only(table, mark) <==> r in table && RuleOf(r, mark)
    ensures Only(table, mark) == [] ==> Without(table, mark) == table
  {
    if table != [] {
      OnlyIs(table[1..], mark);
      assert forall r :: r in table <==> r == table[0] || r in table[1..];
    }
  }

  lemma {:induction false} NoneOfMark(table: seq<string>, mark: nat)
    requires forall r | r in table :: !RuleOf(r, mark)
    ensures Without(table, mark) == table && Only(table, mark) == []
  {
    if table != [] { NoneOfMark(table[1..], mark); }
  }

  lemma OnlyAdd(table: seq<string>, rule: string, mark: nat)
    ensures Only(AddRule(table, rule), mark) ==
      if RuleOf(rule, mark) then AddRule(Only(table, mark), rule) else Only(table, mark)
  {
    OnlyIs(table, mark);
    assert ([rule] + table)[1..] == table;
  }

  lemma {:induction false} OnlyRemove(table: seq<string>, rule: string, mark: nat)
    ensures Only(RemoveRule(table, rule), mark) ==
      if RuleOf(rule, mark) then RemoveRule(Only(table, mark), rule) else Only(table, mark)
  {
    if table != [] && table[0] != rule {
      OnlyRemove(table[1..], rule, mark);
      var rest := RemoveRule(table[1..], rule);
      assert ([table[0]] + rest)[1..] == rest;
    }
  }

  lemma {:induction false} OnlyAddAll(table: seq<string>, rules: seq<string>, mark: nat, own: nat)
    requires forall r | r in rules :: RuleOf(r, own)
    ensures Only(AddAll(table, rules), mark) ==
      if own == mark then AddAll(Only(table, mark), rules) else Only(table, mark)
    decreases |rules|
  {
    if rules != [] {
      OnlyAdd(table, rules[0], mark);
      OnlyAddAll(AddRule(table, rules[0]), rules[1..], mark, own);
      if RuleOf(rules[0], mark) { RuleHasOneMark(rules[0], mark, own); }
    }
  }

  lemma {:induction false} OnlyRemoveAll(table: seq<string>, rules: seq<string>, mark: nat, own: nat)
    requires forall r | r in rules :: RuleOf(r, own)
    ensures Only(RemoveAll(table, rules), mark) ==
      if own == mark then RemoveAll(Only(table, mark), rules) else Only(table, mark)
    decreases |rules|
  {
    if rules != [] {
      OnlyRemove(table, rules[0], mark);
      OnlyRemoveAll(RemoveRule(table, rules[0]), rules[1..], mark, own);
      if RuleOf(rules[0], mark) { RuleHasOneMark(rules[0], mark, own); }
    }
  }

  /** What one event does to the rules of `mark`. */
  lemma EventOnly(table: seq<string>, e: NatEvent, mark: nat)
    ensures Only(ApplyNat(table, e), mark) ==
      if Mark(e.c.nsIndex) == mark then ApplyNat(Only(table, mark), e) else Only(table, mark)
  {
    var own := Mark(e.c.nsIndex);
    OwnRules(own, e.c.inputs, e.outputs);
    if e.AddNatRules? {
      OnlyAddAll(table, NatRules(own, e.outputs) + MarkRules(own, e.c.inputs), mark, own);
    } else {
      OnlyRemoveAll(table, MarkRules(own, e.c.inputs) + NatRules(own, e.outputs), mark, own);
    }
  }

  /** The rules of a run survive any steps of runs with other marks, in order. */
  lemma {:induction false} OthersNeverDelete(table: seq<string>, es: seq<NatEvent>, mark: nat)
    requires forall i | 0 <= i < |es| :: Mark(es[i].c.nsIndex) != mark
    ensures Only(RunNat(table, es), mark) == Only(table, mark)
    decreases |es|
  {
    if es != [] {
      EventOnly(table, es[0], mark);
      OthersNeverDelete(ApplyNat(table, es[0]), es[1..], mark);
    }
  }

  lemma {:induction false} AddAllElements(table: seq<string>, rules: seq<string>)
    requires Distinct(table)
    ensures Distinct(AddAll(table, rules))
    ensures forall r :: r in AddAll(table, rules) <==> r in table || r in rules
    decreases |rules|
  {
    if rules != [] {
      AddAllElements(AddRule(table, rules[0]), rules[1..]);
      assert forall r :: r in rules <==> r == rules[0] || r in rules[1..];
    }
  }

  lemma {:induction false} RemoveElements(table: seq<string>, rule: string)
    requires Distinct(table)
    ensures Distinct(RemoveRule(table, rule))
    ensures forall r :: r in RemoveRule(table, rule) <==> r in table && r != rule
  {
    if table != [] {
      var rest := RemoveRule(table[1..], rule);
      RemoveElements(table[1..], rule);
      assert forall r :: r in table <==> r == table[0] || r in table[1..];
      forall i | 0 <= i < |rest|
        ensures rest[i] != table[0]
      {
        assert rest[i] in table[1..];
      }
    }
  }

  lemma {:induction false} RemoveAllElements(table: seq<string>, rules: seq<string>)
    requires Distinct(table)
    ensures forall r :: r in RemoveAll(table, rules) <==> r in table && r !in rules
    decreases |rules|
  {
    if rules != [] {
      RemoveElements(table, rules[0]);
      RemoveAllElements(RemoveRule(table, rules[0]), rules[1..]);
      assert forall r :: r in rules <==> r == rules[0] || r in rules[1..];
    }
  }

  /** The rules left of an add followed by a remove of the same run: none,
      exactly when each interface added for is among those removed for. */
  lemma LeftOver(c: Controller, outputs: seq<string>, later: seq<string>)
    ensures ApplyNat(ApplyNat([], AddNatRules(c, outputs)), RemoveNatRules(c, later)) == [] <==>
      forall o | o in outputs :: o in later
  {
    var mark := Mark(c.nsIndex);
    var added := NatRules(mark, outputs) + MarkRules(mark, c.inputs);
    var removed := MarkRules(mark, c.inputs) + NatRules(mark, later);
    var left := RemoveAll(AddAll([], added), removed);
    assert left == [] || left[0] in left;
    AddAllElements([], added);
    RemoveAllElements(AddAll([], added), removed);
    RulesMembers(mark, c.inputs, outputs);
    RulesMembers(mark, c.inputs, later);
    if left == [] {
      forall o | o in outputs
        ensures o in later
      {
        assert NatRule(mark, o) in added && NatRule(mark, o) !in left;
      }
    }
  }

  /** Set up, let runs with other marks do anything, tear down: the table is
      what the others alone would have made of it, exactly when no default
      interface present at set-up is missing at tear-down. */
  lemma SetUpThenTearDown(table: seq<string>, c: Controller, outputs: seq<string>, es: seq<NatEvent>, later: seq<string>)
    requires forall r | r in table :: !RuleOf(r, Mark(c.nsIndex))
    requires forall i | 0 <= i < |es| :: Mark(es[i].c.nsIndex) != Mark(c.nsIndex)
    ensures var up := ApplyNat(table, AddNatRules(c, outputs));
      ApplyNat(RunNat(up, es), RemoveNatRules(c, later)) == RunNat(table, es) <==>
        forall o | o in outputs :: o in later
  {
    var mark := Mark(c.nsIndex);
    var up := ApplyNat(table, AddNatRules(c, outputs));
    var down := ApplyNat(RunNat(up, es), RemoveNatRules(c, later));
    NoneOfMark(table, mark);
    EventWithout(table, AddNatRules(c, outputs), mark);
    RunsDoNotInterfere(up, es, mark);
    EventWithout(RunNat(up, es), RemoveNatRules(c, later), mark);
    assert Without(down, mark) == RunNat(table, es);
    EventOnly(table, AddNatRules(c, outputs), mark);
    OthersNeverDelete(up, es, mark);
    EventOnly(RunNat(up, es), RemoveNatRules(c, later), mark);
    LeftOver(c, outputs, later);
    OnlyIs(down, mark);
    WithoutIs(down, mark);
    if down == Without(down, mark) {
      NoneOfMark(down, mark);
    }
  }
}
