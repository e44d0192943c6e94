# Verified model of the test infrastructure's allocators, triggers and in-place loops

The project models, in Dafny, the parts of the repository that keep state or do
arithmetic, and proves what they promise for all inputs, all runs and all
interleavings.

- **Shared pools** (`Cidr`, `NetworkSearch`, `NetworkAssets`, `AssetRuns`,
  `Nat`, `NatRuns`, `Indexer`): parallel test runs take networks, bridge names
  and indexes from one JSON file under a lock. The file is the state; each
  `get`, `release_all`, `set` or `del` is one step of one of any number of
  clients.
  Allocated bridge names become packet marks and NAT rules in a shared table;
  `NatRuns` follows whole tests through pool and table together.
- **Trigger engine** (`Operators`, `Triggers`, `TriggerProperties`,
  `TriggerOutcomes`, `TriggerEngine`): values that configurations take from
  triggers unless the user set them, and OLM triggers that raise resource values.
- **Address plan** (`AddressPlan`, `StaticNetwork`, `VlanMove`): node addresses,
  VIPs, MAC slices, bonds, VLANs and the move of host addresses to a VLAN.
- **In-place loops** (`EtcHosts`, `RestartPoll`, `ResourcePath`): the hosts file
  updater, the restart poll that removes from the list it iterates, and the
  evaluator of dotted paths.

Objects the source changes in place are classes here, and loops are loops; their
contracts tie them to functions, and the theorems are about these functions.
`Text` and `Sequences` hold the string operations and sequence facts they share.

Where code and comments differ the model follows the code:

- The comment at `assets.py:155-161` says only the first three hextets of an
  IPv6 network move. That holds for prefixes up to 120 only
  (`Cidr.StepKeepsLowBits`), and up to 72 nothing can move at all.
- A free primary bridge name is not recorded as used before the secondary one is
  chosen, so equal base names collide (`NetworkAssets.EqualBaseNamesCollide`).
- `del_index` answers false after removing index 0.
- `EnvVar.copy` takes a falsy value for no value, so a trigger that sets 0 or
  False has no effect on DefaultVariables (`TriggerProperties.SettingTakesEffectIff`).
- Updating the hosts file twice is not updating it once when a name has to be
  appended behind a last line without a newline: the second update loses that
  line (`EtcHosts.FileIdempotentIff`).
- For an IPv6-primary dual stack the list of provisioning networks starts with
  IPv4 while the primary provisioning network is IPv6
  (`AddressPlan.PrimaryProvisioningComesFirstIff`), and static interfaces drop
  the network behind an IPv6 one (`StaticNetwork.HostsReachEveryStackIff`).

`dafny verify dfyconfig.toml` checks the whole project.

## Model

| member | source | states |
|---|---|---|
| `Cidr.DisjointIff` | src/assisted_test_infra/test_infra/tools/assets.py:146-151 | two networks share no address if and only if neither contains the other by the one-way test; for equal prefixes the one test decides it |
| `Cidr.AdvanceMovesBlocks` | src/assisted_test_infra/test_infra/tools/assets.py:139-144 | an increment lands on a network boundary a fixed number of blocks further on, strictly above the old value |
| `Cidr.StepKeepsLowBits` | src/assisted_test_infra/test_infra/tools/assets.py:153-163 | an IPv6 step adds 2^(200-prefix), 2^80 for a /120, and leaves the low bits unchanged exactly when prefix + low <= 200; the comment's promise that only the first three hextets move thus holds exactly for prefixes up to 120 |
| `Cidr.ShortPrefixCannotMove` | src/assisted_test_infra/test_infra/tools/assets.py:153-163 | the IPv6 step never fits for prefixes up to 72, so such a network can only be used where it stands |
| `Cidr.StrideInAddresses` | src/assisted_test_infra/test_infra/tools/assets.py:139-163 | candidates are 2^(32-prefix) addresses apart for IPv4, one network, and 2^(200-prefix) for IPv6 |
| `NetworkSearch.SearchOutcome` | src/assisted_test_infra/test_infra/tools/assets.py:139-151 | the search ends on the first free candidate at or after the base, after no more increments than allocated objects of the family lie ahead of it; it raises if and only if no candidate in the address space is free |
| `NetworkSearch.LowestFreeNetwork` | src/assisted_test_infra/test_infra/tools/assets.py:139-151 | for IPv4 the search returns the base if it is free and otherwise the lowest free network of its size behind it; it raises exactly when no network from there on is free |
| `NetworkSearch.AllocatedIff` | src/assisted_test_infra/test_infra/tools/assets.py:146-151 | a candidate counts as taken exactly when the address of an allocated object no larger than it lies in it |
| `NetworkSearch.AlwaysAvoidedIff` | src/assisted_test_infra/test_infra/tools/assets.py:146-151 | the allocated networks that every search for a prefix length avoids, whatever its base and whatever else is allocated, are exactly those no larger than that prefix |
| `NetworkSearch.LargerIsNotSeen` | src/assisted_test_infra/test_infra/tools/assets.py:146-151 | the failing input: a search started inside a larger allocated network stays there |
| `NetworkSearch.IPNetwork.InPlaceAdd` | src/assisted_test_infra/test_infra/tools/assets.py:142-144 | `+=` moves the caller's object by blocks of its own size, or raises and leaves it alone |
| `NetworkSearch.IsIpNetworkAllocated` | src/assisted_test_infra/test_infra/tools/assets.py:146-151 | the loop finds an allocated object inside the candidate if there is one |
| `NetworkSearch.SetNextAvailableIpNetwork` | src/assisted_test_infra/test_infra/tools/assets.py:139-144 | the loop terminates with the caller's object on the network `NextFree` names, for IPv4 the lowest free one (`LowestFreeNetwork`), or reports the IndexError |
| `NetworkAssets.PlacedAreFree` | src/assisted_test_infra/test_infra/tools/assets.py:130-137 | each field's network keeps its family and prefix and contains no used object and no field placed before it |
| `NetworkAssets.PlacedIsFound` | src/assisted_test_infra/test_infra/tools/assets.py:130-137 | each field gets what the search finds from its base, and the first for which it finds nothing ends the placement |
| `NetworkAssets.NextBridgeIndex` | src/assisted_test_infra/test_infra/tools/assets.py:179-184 | the index found is unused, all smaller ones from the start are used, and it is bounded by the number of distinct used names |
| `NetworkAssets.NextBridgeIsLeast` | src/assisted_test_infra/test_infra/tools/assets.py:179-184 | the new name carries the least unused index, at most the number of names in use |
| `NetworkAssets.ChosenBridges` | src/assisted_test_infra/test_infra/tools/assets.py:168-177 | both chosen names are unused; they collide with each other exactly when the base primary is free and the secondary lands on it |
| `NetworkAssets.BridgesKeptOrLeast` | src/assisted_test_infra/test_infra/tools/assets.py:168-184 | a bridge keeps its base name if that is free and is otherwise tt or stt with the least number not in use, the new primary counting as in use for the secondary |
| `NetworkAssets.EqualBaseNamesCollide` | src/assisted_test_infra/test_infra/tools/assets.py:171-177 | equal base names do collide on a first `get`, because a free primary name is not recorded |
| `NetworkAssets.GetAvoids` | src/assisted_test_infra/test_infra/tools/assets.py:55-128 | no network of the asset returned contains an address of a host interface, of a DHCP lease or of an asset in the file, and its bridges are none of theirs |
| `NetworkAssets.FreeBaseIsKept` | src/assisted_test_infra/test_infra/tools/assets.py:130-144 | a field keeps its base network if and only if no address in use and no field before it lies in that |
| `NetworkAssets.GetEffects` | src/assisted_test_infra/test_infra/tools/assets.py:55-77 | the file grows by the returned asset only, which counts as taken, and nothing seen is remembered; or some field finds no free network, the file stays and everything seen is remembered |
| `NetworkAssets.LibvirtNetworkAssets.Get` | src/assisted_test_infra/test_infra/tools/assets.py:55-77 | one `get` turns fields and file into exactly what `GetStep` says, and the asset it returns avoids everything seen on the host, in leases and in the file |
| `NetworkAssets.LibvirtNetworkAssets.OverrideIpNetworks` | src/assisted_test_infra/test_infra/tools/assets.py:130-137 | the field loop places networks in order, each settled one counting as used for the next |
| `NetworkAssets.LibvirtNetworkAssets.OverrideNetworkBridges` | src/assisted_test_infra/test_infra/tools/assets.py:168-177 | the two bridge fields end on the names `ChooseBridges` gives, and only a primary name that had to change is recorded as used |
| `NetworkAssets.LibvirtNetworkAssets.GetNextAvailableNetBridge` | src/assisted_test_infra/test_infra/tools/assets.py:179-184 | the counting loop terminates on the least unused index |
| `NetworkAssets.LibvirtNetworkAssets.ReleaseAll` | src/assisted_test_infra/test_infra/tools/assets.py:192-196 | one `release_all` leaves the file without the assets taken, in order, and empties the taken set |
| `NetworkAssets.RemoveTaken` | src/assisted_test_infra/test_infra/tools/assets.py:205-217 | popping the collected indexes from the back of the shrinking list leaves exactly the assets not taken, in order |
| `AssetRuns.EveryRunKeepsAssetsApart` | src/assisted_test_infra/test_infra/tools/assets.py:55-77 | over every interleaving of steps of any number of clients, all networks of all assets in the file are pairwise disjoint and all bridge names differ, given one prefix length per family and tt / stt base names |
| `AssetRuns.FreshPoolIsSound` | src/assisted_test_infra/test_infra/tools/assets.py:36-53 | an empty pool with such base assets is a start of these runs |
| `AssetRuns.FreshLedgerIsTracked` | src/assisted_test_infra/test_infra/tools/assets.py:36-53 | with owners written down, the empty pool is a start of the ownership theorems too |
| `AssetRuns.GetIsNew` | src/assisted_test_infra/test_infra/tools/assets.py:139-151 | a successful `get` never repeats an asset of the file, whatever the prefix lengths |
| `AssetRuns.ReleaseIsByOwner` | src/assisted_test_infra/test_infra/tools/assets.py:205-217 | on every run removal by printed value leaves what removal by owner would leave |
| `AssetRuns.RunLeaves` | src/assisted_test_infra/test_infra/tools/assets.py:192-217 | a run leaves the old entries whose owners did not release, in order, followed only by entries of clients that called `get` |
| `AssetRuns.GetThenReleaseRestores` | src/assisted_test_infra/test_infra/tools/assets.py:66-71 | a `get`, any steps of other clients and `release_all` leave the file as it was, minus what the others released, plus what the others took, entry by entry with its owner; none of the client's own is left |
| `AssetRuns.GetThenReleaseAlone` | src/assisted_test_infra/test_infra/tools/assets.py:192-196 | with nobody in between, `get` and `release_all` restore the file exactly |
| `Nat.IndexOfBridgeName` | src/assisted_test_infra/test_infra/controllers/nat_controller.py:39-43 | reading the index out of a name the bridge search made gives the index back |
| `Nat.CanonicalNamesMarkedApart` | src/assisted_test_infra/test_infra/controllers/nat_controller.py:45-47 | allocated names have equal marks if and only if they are equal |
| `Nat.SharesAMarkIff` | src/assisted_test_infra/test_infra/controllers/nat_controller.py:39-47 | for every name exactly one allocated name has its mark; the name shares its mark with another allocated name if and only if it is not of the allocated form itself |
| `Nat.PaddedNameSharesMark` | src/assisted_test_infra/test_infra/controllers/nat_controller.py:39-43 | inputs outside that form: tt01 and tt1 with a final newline read as 1, as tt1 does, and stt1 as 0, as tt0 does |
| `Nat.HeldAssetsMarkedApart` | src/assisted_test_infra/test_infra/controllers/nat_controller.py:39-47 | in every reachable state of the pool, assets held at the same time have different marks |
| `Nat.RuleHasOneMark` | src/assisted_test_infra/test_infra/controllers/nat_controller.py:55-77 | the text of a rule determines its mark, whatever the interface names |
| `Nat.RuleTexts` | src/assisted_test_infra/test_infra/controllers/nat_controller.py:55-77 | a mark rule names its input interface and the mark, a masquerading rule the mark and its output interface, in the options iptables reads |
| `Nat.MarkRuleInjective` | src/assisted_test_infra/test_infra/controllers/nat_controller.py:55-60 | different input interfaces have different rules |
| `Nat.SetUpCoversInterfaces` | src/assisted_test_infra/test_infra/controllers/nat_controller.py:21-28 | after a set-up every input interface is marked and every output interface masqueraded under 555 plus the index; what is new serves one of them and stands before the old rules, which keep their order |
| `Nat.SetUpAddsOneEach` | src/assisted_test_infra/test_infra/controllers/nat_controller.py:21-28 | on a table without the mark, a set-up for different interfaces adds as many rules as there are interfaces |
| `Nat.AddedAtTheHead` | src/assisted_test_infra/test_infra/controllers/nat_controller.py:94-112 | new rules stand before the old ones, the last one first |
| `Nat.RemoveRuleIs` | src/assisted_test_infra/test_infra/controllers/nat_controller.py:101-118 | removing a rule takes its first occurrence and nothing else |
| `Nat.IpTables.Add` | src/assisted_test_infra/test_infra/controllers/nat_controller.py:108-112 | a rule is inserted at the head unless the check finds it |
| `Nat.IpTables.Remove` | src/assisted_test_infra/test_infra/controllers/nat_controller.py:114-118 | the first match of a rule is deleted if the check finds one |
| `Nat.NatController.AddRules` | src/assisted_test_infra/test_infra/controllers/nat_controller.py:21-28 | the two loops add the rules of output interfaces, then of input interfaces, after which every interface has its rule |
| `Nat.NatController.RemoveRules` | src/assisted_test_infra/test_infra/controllers/nat_controller.py:30-37 | the two loops remove the rules of input interfaces, then of output interfaces |
| `Nat.RunsDoNotInterfere` | src/assisted_test_infra/test_infra/controllers/nat_controller.py:86-118 | seen without the rules of one mark, any run of other marks acts as if those rules were not there |
| `Nat.OthersNeverDelete` | src/assisted_test_infra/test_infra/controllers/nat_controller.py:30-37 | no step of a run with another mark deletes, adds or reorders rules of this mark |
| `Nat.SetUpThenTearDown` | src/assisted_test_infra/test_infra/controllers/nat_controller.py:21-37 | set-up, any steps of other marks and tear-down leave the table the others alone would have made, if and only if no default interface present at set-up is missing at tear-down |
| `NatRuns.FreshWorldIsGood` | src/tests/base_test.py:153-168 | before any test has started, base assets of one prefix length per family with tt / stt names are a start of the joint runs |
| `NatRuns.EveryRunMarksHoldersApart` | src/tests/base_test.py:153-168 | in every state of every interleaving of whole tests (take an asset, add rules, remove them or not, give the asset back), two tests that hold assets have different marks |
| `NatRuns.HeldRulesSurvive` | src/tests/base_test.py:476-491 | while a test holds its asset, no step of any other test deletes, adds or reorders a rule of its mark |
| `NatRuns.SetUpCoversAsset` | src/tests/base_test.py:476-491 | the set-up of a test that holds an asset marks both of its bridges and masquerades every default interface under 555 plus the number in the first bridge's name |
| `NatRuns.SetUpAndTearDownLeaveOthers` | src/tests/base_test.py:476-508 | set-up, any steps of other tests on pool and table, and tear-down leave the table those steps alone would have made, if and only if no default interface present at set-up is missing at tear-down |
| `NatRuns.StepAccountedIff` | src/tests/base_test.py:476-508 | from a reachable state in which each rule belongs to the test that set it up, a step keeps that so if and only if it is tidy: the asset is not given back before the removal, and the removal covers every interface added for |
| `NatRuns.SessionAccountedIff` | src/tests/base_test.py:476-508 | over a whole session, each rule belongs at every moment to the test that set it up if and only if every step is tidy |
| `NatRuns.TidySessionRestoresTable` | src/tests/base_test.py:476-508 | after any interleaving of tests in which each removes its rules, for all interfaces it added them for, before giving its asset back, the table is the one the session started with |
| `NatRuns.LeftRulesWait` | src/tests/base_test.py:505-508 | the rules left when the removal is skipped and the asset given back, as the tear-down flag allows, stay exactly as they are until a step acts under their mark again |
| `NatRuns.EarlyReturnLeavesRules` | src/tests/base_test.py:505-508 | the failing session: after one such test the pool is empty and the table is not, and a second test with the same base asset takes the same names and finds the first one's rules under its own mark |
| `Indexer.FirstUnusedIsUnused` | scripts/indexer.py:78-85 | an index handed out is unused even in a file with repeated or negative values |
| `Indexer.FirstUnusedIsLeast` | scripts/indexer.py:78-85 | on distinct values in range it is the least unused one, and there is none exactly when the pool is full |
| `Indexer.SetIdxAnswers` | scripts/indexer.py:91-100 | the answer is empty if and only if the namespace is new and the pool is full; otherwise the namespace holds it, a new one the least unused, and nobody else's index changes |
| `Indexer.EveryRunKeepsIndexed` | scripts/indexer.py:58-85 | in every reachable file namespaces and indexes are distinct, indexes lie in [0, max_indexes) and there are at most max_indexes of them, despite the looser guard of `set_index` |
| `Indexer.IndexIsStable` | scripts/indexer.py:91-119 | a namespace keeps its index until it or all are deleted |
| `Indexer.DelAllEmpties` | scripts/indexer.py:114-119 | after `del all` no namespace has an index and the next one to ask gets 0 |
| `Indexer.DelFreesIndex` | scripts/indexer.py:114-119 | after `del` of one namespace it has no index, every other keeps its own, and a new one gets the freed index or a smaller one |
| `Indexer.ZeroIsGivenIff` | scripts/indexer.py:58-64 | in a file of positive values only, valid or not, a new namespace gets 0 exactly while there are at most max_indexes entries |
| `Indexer.IndexProvider.Enter` | scripts/indexer.py:24-27 | entering loads the file; a missing or unreadable one counts as empty |
| `Indexer.IndexProvider.Exit` | scripts/indexer.py:29-35 | leaving dumps the entries, unless the body raised, and clears them |
| `Indexer.PutLookup` | scripts/indexer.py:58-67 | writing an entry, new or not, changes the answer for its namespace only |
| `Indexer.IndexProvider.SetIndex` | scripts/indexer.py:58-64 | the entry is written over any old one, in context, unless there are more than max_indexes entries |
| `Indexer.IndexProvider.DelIndex` | scripts/indexer.py:69-70 | the entry goes; the answer is false also for a removed index 0 |
| `Indexer.IndexProvider.FindFirstUnusedIndex` | scripts/indexer.py:78-85 | the loop over the sorted values computes `FirstUnusedIndex` |
| `Indexer.RunSetIdx` | scripts/indexer.py:91-100 | the `set` action as one step on the file, with its answer |
| `Indexer.RunGetIdx` | scripts/indexer.py:103-111 | the `get` action as one step on the file, with its answer |
| `Indexer.RunDelIdx` | scripts/indexer.py:114-119 | the `del` action as one step on the file, which `all` leaves empty |
| `Operators.RaisedWithinBounds` | src/assisted_test_infra/test_infra/utils/operators_utils.py:95-103 | whatever the order of operators, a positive value ends strictly above every requirement, and no value ends above max(value, twice the largest requirement) |
| `Operators.SecondPassIff` | src/assisted_test_infra/test_infra/utils/operators_utils.py:95-103 | for non-negative values a second pass over the same operators changes nothing if and only if the value was positive or the first positive requirement is matched by a later one |
| `Triggers.PassIsFold` | src/triggers/env_trigger.py:86-97 | the trigger-outer, configuration-inner loops give each configuration the left fold of the triggers met at the start, and go through exactly when every fold does |
| `Triggers.HandleTriggerCells` | src/triggers/env_trigger.py:39-52 | settings act on each attribute separately and touch no attribute the configuration lacks |
| `Triggers.HandleCells` | src/triggers/olm_operators_trigger.py:12-23 | an OLM trigger computes each resource attribute from its own value alone; it raises exactly when one of them does |
| `Triggers.HandleAllCells` | src/triggers/env_trigger.py:94-97 | a whole pass acts on each attribute separately |
| `TriggerProperties.UserValuesSurvive` | src/triggers/env_trigger.py:32-52 | over any sequence of passes, failed ones included, attributes of origin ENVIRONMENT or PARAMETERIZED keep value and origin, the environment flag surviving every copy of its variable, none appears or disappears, and settable ones stay settable |
| `TriggerOutcomes.UserSetIsKept` | src/triggers/env_trigger.py:32-52 | the same attribute by attribute: a value set by the environment, or recorded as ENVIRONMENT or PARAMETERIZED, is there unchanged after any passes |
| `TriggerOutcomes.UnmetIsInvisible` | src/triggers/env_trigger.py:70-92 | a trigger without conditions, or with one that holds on no configuration, leaves every pass as it is without that trigger |
| `TriggerOutcomes.MetIsHandled` | src/triggers/env_trigger.py:70-97 | one with conditions that each hold on some configuration is handled on what the triggers before it left |
| `TriggerOutcomes.RaisedPartway` | src/triggers/env_trigger.py:94-97 | when a trigger raises, the configurations before the one that did are handled and the rest is as it was |
| `TriggerOutcomes.PassStops` | src/triggers/env_trigger.py:94-97 | a pass that raises ends with the trigger that did; those before it were handled in full |
| `TriggerOutcomes.OlmRaisesIff` | src/assisted_test_infra/test_infra/utils/operators_utils.py:95-103 | an OLM trigger is a ValueError exactly for an unknown operator, a TypeError exactly for a resource attribute that is no number |
| `TriggerOutcomes.LastTriggerWins` | src/triggers/env_trigger.py:39-52 | an attribute the user did not set holds what the last setting of the last trigger says |
| `TriggerOutcomes.GivenArgument` | src/assisted_test_infra/test_infra/helper_classes/config/base_config.py:15-27 | an argument given to the constructor stands and is open to triggers; one left open comes from the defaults |
| `TriggerOutcomes.RequirementsTabled` | src/consts/olm_operators.py:46-139 | the requirements of all operators for all nine resources, single node or not |
| `TriggerOutcomes.OperatorRaises` | src/triggers/olm_operators_trigger.py:16-23 | after one operator a settable number or boolean is as it was above the tabled requirement and has that added otherwise, unless DefaultVariables drop a sum of zero |
| `TriggerProperties.RepeatableIff` | src/assisted_test_infra/test_infra/utils/operators_utils.py:95-103 | for numbers of either sign, one pass ends where a second one changes nothing if and only if the start is repeatable: a negative one either has a negative sum with all requirements and nothing left to add, or climbs to a sum that repeats over the later requirements and is raised by them above the earlier ones |
| `TriggerProperties.PassAgainIff` | src/triggers/env_trigger.py:86-97 | repeating a pass with the same met triggers goes through, and changes nothing if and only if every attribute only OLM triggers compute starts on a repeatable value: positive; 0 with its first positive requirement matched by a later one; or negative, by its partial sums with the requirements; plain triggers never stand in the way |
| `TriggerProperties.ZeroIsRaisedTwice` | src/triggers/olm_operators_trigger.py:16-23 | the failing input: a worker memory of 0 under the CNV operator is 360 after one pass and 720 after the next |
| `TriggerProperties.PassMeetsRequirements` | src/triggers/olm_operators_trigger.py:16-23 | such an attribute ends above every requirement it met and at most at twice the largest unless it started higher |
| `TriggerProperties.DefaultsThenConfigIff` | src/assisted_test_infra/test_infra/helper_classes/config/base_config.py:15-27 | an attribute a configuration took from defaults that had a pass keeps its value in the configuration's own pass if and only if it is not computed by OLM triggers alone or is repeatable |
| `TriggerEngine.EnvVar.constructor` | src/assisted_test_infra/test_infra/utils/env_var.py:26-33 | the first key with a value wins, goes through the loader if there is one and marks the variable as set by the user; else the default stands |
| `TriggerEngine.EnvVar.Copy` | src/assisted_test_infra/test_infra/utils/env_var.py:53-59 | a copy keeps the user flag and takes a new value only if it is truthy |
| `TriggerEngine.Triggerable.SetAttr` | src/assisted_test_infra/test_infra/helper_classes/config/base_config.py:56-60 | `_set` of both kinds of configuration: the origin TRIGGER, or a copy of the variable; a missing key is ignored or raises |
| `TriggerEngine.Triggerable.SetValue` | src/assisted_test_infra/test_infra/helper_classes/config/base_config.py:66-71 | an attribute given as a test parameter is no longer settable; its value is the converted one; a missing attribute or a failing conversion raises after the origin was recorded |
| `TriggerEngine.Triggerable.HandleSettings` | src/triggers/env_trigger.py:39-52 | the loop over the settings computes `HandleTrigger` |
| `TriggerEngine.GetOlmVariables` | src/triggers/olm_operators_trigger.py:16-23 | the loop over the resource keys computes `OlmVariables`, stopping at the first error |
| `TriggerEngine.CheckCondition` | src/triggers/env_trigger.py:70-81 | the loops decide that there are conditions and that each holds on some configuration, AttributeErrors counting as not held |
| `TriggerEngine.HandleOver` | src/triggers/env_trigger.py:95-97 | the inner loop changes the configurations in place up to the one that raises, an object listed twice being handled twice |
| `TriggerEngine.TriggerConfigurations` | src/triggers/env_trigger.py:86-97 | a whole pass over any list of configuration objects; over distinct ones it is `TriggerPass` of their states, in which exactly the met triggers are handled (`UnmetIsInvisible`, `MetIsHandled`) |
| `EtcHosts.UpdateEffects` | src/assisted_test_infra/test_infra/utils/utils.py:393-402 | afterwards each name has its exact line, a line changes only into the line of a name it contained, and one line is added per unmatched name |
| `EtcHosts.FirstHit` | src/assisted_test_infra/test_infra/utils/utils.py:393-399 | the first line any name occurs in becomes the line of the first such name in map order; the lines behind it are updated for the other names |
| `EtcHosts.NoHit` | src/assisted_test_infra/test_infra/utils/utils.py:401-402 | names that occur nowhere are appended in map order |
| `EtcHosts.UpdateAgain` | src/assisted_test_infra/test_infra/utils/utils.py:393-402 | updating twice is updating once if an earlier name occurs in a later name's line only inside that name |
| `EtcHosts.IdempotentIff` | src/assisted_test_infra/test_infra/utils/utils.py:393-402 | for names without blanks this is necessary too: idempotence on every list of lines holds if and only if the map has that property |
| `EtcHosts.FileIdempotentIff` | src/assisted_test_infra/test_infra/utils/utils.py:390-405 | on the file, a second update changes nothing if and only if no name is appended behind a last line without a newline |
| `EtcHosts.OpenEndChangesTwice` | src/assisted_test_infra/test_infra/utils/utils.py:390-405 | the failing input: "b" is appended behind the open line "a" and the joined line replaced by the second update |
| `EtcHosts.ReplaceMatched` | src/assisted_test_infra/test_infra/utils/utils.py:393-399 | the loop overwriting lines and deleting names from the caller's map computes `Sweep` |
| `EtcHosts.UpdateEtcHosts` | src/assisted_test_infra/test_infra/utils/utils.py:386-406 | the file gets `UpdateText`, the caller's map is left with the unmatched names, and the closing log line raises exactly for an empty map |
| `EtcHosts.ConfigEtcHosts` | src/assisted_test_infra/test_infra/helper_classes/day2_cluster.py:88-99 | the single-name form writes, for every file, what the updater writes for the one-entry map |
| `RestartPoll.RestartVmsAfterFirstReboot` | src/assisted_test_infra/test_infra/controllers/node_controllers/kvm_s390x_controller.py:140-153 | iterating by position over the list it shrinks, the poll starts and leaves what `Poll` says; it is True only when no node was looked at |
| `RestartPoll.PollEffects` | src/assisted_test_infra/test_infra/controllers/node_controllers/kvm_s390x_controller.py:140-153 | a poll starts only listed nodes that are off, takes exactly those off the list, keeps the others in order, is True exactly when no node is listed, and starts one whenever a listed node is off |
| `RestartPoll.StartedExactly` | src/assisted_test_infra/test_infra/controllers/node_controllers/kvm_s390x_controller.py:140-153 | a poll starts a listed domain exactly when it is off, has master or worker in its name and the one listed before it is not started |
| `RestartPoll.FoundByName` | src/assisted_test_infra/test_infra/controllers/node_controllers/kvm_s390x_controller.py:140-153 | a poll is True exactly when no listed name has master or worker in it |
| `RestartPoll.StartedOnceEach` | src/assisted_test_infra/test_infra/controllers/node_controllers/kvm_s390x_controller.py:122-138 | over all polls no domain is started twice, and a poll is True exactly when every node of the original list has been started |
| `RestartPoll.PollHalves` | src/assisted_test_infra/test_infra/controllers/node_controllers/kvm_s390x_controller.py:143-151 | with all listed nodes off a poll leaves at most half of them, exactly half (rounded down) if only nodes are listed |
| `RestartPoll.PollsNeededBound` | src/assisted_test_infra/test_infra/controllers/node_controllers/kvm_s390x_controller.py:122-138 | n nodes that stay off need at most one poll per binary digit of n plus one, hence at most n + 1, and exactly that many if only nodes are listed |
| `ResourcePath.GetFieldFromResource` | src/assisted_test_infra/test_infra/utils/k8s_utils.py:21-44 | the loop over the parts computes `Walk`, with the blanks, signs and underscores int() accepts |
| `ResourcePath.PathIsNavigation` | src/assisted_test_infra/test_infra/utils/k8s_utils.py:21-44 | evaluating a printed path equals navigating its steps: the same value, or the same kind of error at the same step |
| `ResourcePath.NegativeIndex` | src/assisted_test_infra/test_infra/utils/k8s_utils.py:26-38 | a negative index counts from the end and is an IndexError exactly when it reaches before the start |
| `ResourcePath.IndexTexts` | src/assisted_test_infra/test_infra/utils/k8s_utils.py:26-28 | blanks around an index, a plus sign and underscores between digits do not change what it reads as |
| `ResourcePath.TwoOpenedRaise` | src/assisted_test_infra/test_infra/utils/k8s_utils.py:26-28 | a second opening bracket is a ValueError before anything is looked up |
| `ResourcePath.ExtraClosedIgnored` | src/assisted_test_infra/test_infra/utils/k8s_utils.py:28-28 | further closing brackets are ignored |
| `VlanMove.MoveBridgeAddressesToVlan` | src/assisted_test_infra/test_infra/controllers/node_controllers/terraform_controller.py:520-532 | the loop with failing commands computes `MoveAll`, and after every command the two interfaces together hold what they held |
| `VlanMove.NoneLost` | src/assisted_test_infra/test_infra/controllers/node_controllers/terraform_controller.py:525-532 | whatever fails, in every state on the way the addresses on the two interfaces together are the ones at the start |
| `VlanMove.MoveExact` | src/assisted_test_infra/test_infra/controllers/node_controllers/terraform_controller.py:525-532 | which address ends where, for every pattern of failures |
| `VlanMove.MoveSucceeds` | src/assisted_test_infra/test_infra/controllers/node_controllers/terraform_controller.py:520-532 | without failures the bridge keeps exactly its IPv6 link-local addresses, the VLAN interface holds the union, and a second move changes nothing |
| `VlanMove.MovedTexts` | src/assisted_test_infra/test_infra/controllers/node_controllers/terraform_controller.py:505-532 | without failures the addresses with a colon that start with fe80: in any case stay; of the others the IPv4 ones join the VLAN interface first, then the IPv6 ones |
| `AddressPlan.FillTfvars` | src/assisted_test_infra/test_infra/controllers/node_controllers/terraform_controller.py:195-281 | the address entries of the dictionary: node lists, machine and provisioning networks and VIPs, configured VIPs before computed ones, user parameters over these, secondary lists over all; None where an address does not exist |
| `AddressPlan.ParametersPrevail` | src/assisted_test_infra/test_infra/controllers/node_controllers/terraform_controller.py:195-281 | a user parameter replaces any computed entry but the secondary lists |
| `AddressPlan.PrimaryListsWritten` | src/assisted_test_infra/test_infra/controllers/node_controllers/terraform_controller.py:202-222 | without IPv6 the primary lists are consecutive addresses from +10 of the IPv4 machine network on |
| `AddressPlan.SecondaryListsWritten` | src/assisted_test_infra/test_infra/controllers/node_controllers/terraform_controller.py:256-281 | without IPv6 the secondary lists are such addresses of the IPv4 provisioning network, whatever the parameters |
| `AddressPlan.VipsWritten` | src/assisted_test_infra/test_infra/controllers/node_controllers/terraform_controller.py:180-193 | configured VIPs are written where there are any and computed ones where there are none, API and ingress apart |
| `AddressPlan.StackNetworks` | src/assisted_test_infra/test_infra/controllers/node_controllers/terraform_controller.py:347-406 | the primary and all machine and provisioning networks of every stack, one case each |
| `AddressPlan.NodeAddresses` | src/assisted_test_infra/test_infra/controllers/node_controllers/terraform_controller.py:204-222 | all three lists come out if and only if the network has no host bits set, the address after the workers exists and so does the last arbiter's; then they are one run of consecutive addresses from +10 on, cut at the counts |
| `AddressPlan.NoAddressesWithIpv6` | src/assisted_test_infra/test_infra/controllers/node_controllers/terraform_controller.py:339-345 | with IPv6 enabled every node gets an empty entry and none an address |
| `AddressPlan.ListsAvoidVips` | src/assisted_test_infra/test_infra/controllers/node_controllers/terraform_controller.py:204-222 | the three lists of one network hold distinct addresses, avoid its VIPs exactly for at most 90 nodes, and lie in it exactly when it is large enough |
| `AddressPlan.NodesAvoidVips` | src/assisted_test_infra/test_infra/controllers/node_controllers/terraform_controller.py:195-281 | in the dictionary as written, no node address is one of the VIPs if and only if IPv6 is on, where nodes get no addresses, or there are at most 90 nodes; the addresses are distinct |
| `AddressPlan.VipsMatchNetworks` | src/assisted_test_infra/test_infra/controllers/node_controllers/terraform_controller.py:296-336 | for every enabled stack and primary choice the k-th VIPs are +100 and +101 of the k-th machine network, inside it exactly when it has at least 102 addresses |
| `AddressPlan.VipsExist` | src/assisted_test_infra/test_infra/controllers/node_controllers/terraform_controller.py:310-334 | such networks always yield VIPs |
| `AddressPlan.VipsExistIff` | src/assisted_test_infra/test_infra/controllers/node_controllers/terraform_controller.py:310-334 | VIPs are computed exactly when every machine network of the stack has no host bits set and its address +101 exists |
| `StaticNetwork.SlicesPartition` | src/assisted_test_infra/test_infra/tools/static_network.py:57-83 | the per-host slices put together give the MAC list back exactly when it is not longer than slaves times hosts; with the generated count each host gets one MAC per slave |
| `StaticNetwork.BondPortsMatchMacs` | src/assisted_test_infra/test_infra/tools/static_network.py:205-210 | the bonds' ports are the logical names of primary and secondary MACs if and only if there is one MAC of each per slave |
| `StaticNetwork.NicsNamedOnce` | src/assisted_test_infra/test_infra/tools/static_network.py:205-210 | no NIC belongs to both bonds and no two MACs share a name |
| `StaticNetwork.BondedHostsAgree` | src/assisted_test_infra/test_infra/tools/static_network.py:47-85 | in generated data every host's bonds and MAC map name the same interfaces, and the MAC lists are partitioned |
| `StaticNetwork.PlainHostAgrees` | src/assisted_test_infra/test_infra/tools/static_network.py:106-133 | without bonds each host's two MACs are those of its number and are named after its first and last interface |
| `StaticNetwork.NextHopCarriesHostAddress` | src/assisted_test_infra/test_infra/tools/static_network.py:152-251 | with or without bonds and VLAN exactly one interface bears the next hop's name and it carries the host's address in the first machine network, of the route's family |
| `StaticNetwork.HostsReachEveryStackIff` | src/assisted_test_infra/test_infra/tools/static_network.py:152-291 | for every stack, bonded or not, with a VLAN or not, the interface of the next hop carries the host's address in every machine network if and only if the stack is not a dual one with IPv6 as primary |
| `StaticNetwork.HostsAvoidVips` | src/assisted_test_infra/test_infra/tools/static_network.py:55-133 | generated hosts, bonded or not, with a VLAN or not, carry distinct addresses on the interfaces of their next hops, avoid the VIPs exactly for at most 70 hosts, and lie in the network exactly when it is large enough |
| `StaticNetwork.HostGets` | src/assisted_test_infra/test_infra/tools/static_network.py:152-411 | every generated host has address +30+h of the first machine network and of the first provisioning network on its primary and secondary interface, with their prefix lengths, and the gateway +1 |
| `StaticNetwork.SecondFamilyGets` | src/assisted_test_infra/test_infra/tools/static_network.py:272-291 | an IPv6 network behind an IPv4 one is served by the same interface |
| `StaticNetwork.HostLinks` | src/assisted_test_infra/test_infra/tools/static_network.py:213-374 | names, links, bond mode and ports, VLAN name and parent of every generated host |
| `StaticNetwork.BondedHostMacs` | src/assisted_test_infra/test_infra/tools/static_network.py:57-83 | host i has the i-th share of each MAC list, in order |
| `StaticNetwork.GenerateBonded` | src/assisted_test_infra/test_infra/tools/static_network.py:55-85 | the two loops produce the masters' hosts, then the workers', numbered on |
| `StaticNetwork.GeneratePlain` | src/assisted_test_infra/test_infra/tools/static_network.py:106-133 | the same without bonds |

## Left out

- AssetRuns.EveryRunKeepsAssetsApart: one prefix length per address family is a precondition, because the containment test does not see a larger network that covers the candidate; `NetworkSearch.AlwaysAvoidedIff` states exactly which networks are avoided with mixed lengths.
- NetworkAssets.LibvirtNetworkAssets.Get: addresses and bridges of host interfaces and DHCP leases are an arbitrary input; assets compare by their six fields, not by printed text with key order and extra keys; missing fields of a loaded asset and the parsing and printing of addresses are not modelled.
- NetworkSearch.IPNetwork.InPlaceAdd: the list of allocated objects holds values, not references to the moved object, which the source never moves again.
- Lock timeouts: a lock file is deleted after a timeout; critical sections are assumed to finish in time, and a crash while the file is written is not modelled.
- Nat.IndexOfBridgeName: decimal digits are the ASCII ones, though the pattern also accepts other Unicode digits.
- Nat.NatController.AddRules: iptables is a list of rule texts whose check, insert and delete always succeed; the query for default interfaces is an input.
- NatRuns.EveryRunMarksHoldersApart: one asset and one controller per test; a step out of the fixtures' order does not happen.
- NatRuns.TidySessionRestoresTable: one direction, because the last table alone does not tell tidy sessions from others: a later holder of a name may remove what an earlier one left; `NatRuns.SessionAccountedIff` is the equivalence, over all moments of a session.
- Indexer.RunSetIdx: one IndexProvider per process; the namespace list with its prefix handling and the command line are left out.
- TriggerEngine.CheckCondition: conditions are arbitrary functions that hold, do not hold or raise AttributeError; other exceptions end the pass before it changes anything.
- TriggerEngine.Triggerable.SetValue: the conversion of the new value to the annotated type is a function that may fail, whose results are not fixed.
- TriggerProperties.PassAgainIff: plain triggers are assumed to set resource attributes to non-negative numbers, as the repository's default triggers do; the attributes themselves may hold any number.
- TriggerProperties.DefaultsThenConfigIff: settings DefaultVariables would drop are excluded, since the two kinds of configuration then differ by design; an attribute OLM triggers compute starts as a number, not a boolean.
- EtcHosts.UpdateEtcHosts: newline translation of text files is left out.
- RestartPoll.RestartVmsAfterFirstReboot: listed domains are distinct; failing libvirt calls are left out.
- ResourcePath.GetFieldFromResource: of the blanks and digits int() accepts, only the ASCII ones are modelled.
- StaticNetwork.HostsAvoidVips: addresses past the end of the address space and networks with host bits set, for which the source raises, are not distinguished in static host data.
- StaticNetwork.GenerateBonded: random MAC contents, YAML text, name servers from resolv.conf and the second-day generator are left out; the latter omits required arguments of the function it calls.
- StaticNetwork.GeneratePlain: the same is left out here.
- AddressPlan.FillTfvars: only address entries are modelled, of the many keys written; the rest are copied settings and random MACs, and the DNS record of the first worker goes to the parameters.
- VlanMove.MoveBridgeAddressesToVlan: an address listing never fails, and deleting an address removes that address only; by default Linux also drops the secondary addresses of the same subnet with a primary IPv4 address, so that one of them may be on neither interface until its own turn.
- `Cluster.get_cluster_matching_cidrs`, service client, Kubernetes wrappers, cloud controllers, SSH, CLI, the other fixtures and log handling: plumbing, or easy members only.
