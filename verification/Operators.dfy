/** Resource requirements of OLM operators and the rule that raises a
    configured value above them. */
module Operators {
  import opened Text

  const GB: nat := 1_000_000_000

  /** The keys of a resource dictionary, in its order. */
  const RESOURCE_KEYS: seq<string> := [
    "master_memory", "worker_memory", "master_vcpu", "worker_vcpu", "master_disk",
    "worker_disk", "master_disk_count", "worker_disk_count", "workers_count"
  ]

  datatype Resources = Resources(
    masterMemory: nat := 0, workerMemory: nat := 0, masterVcpu: nat := 0, workerVcpu: nat := 0, masterDisk: nat := 0,
    workerDisk: nat := 0, masterDiskCount: nat := 0, workerDiskCount: nat := 0, workerCount: nat := 0)
  {
    function Get(key: string): Option<nat> {
      match key
      case "master_memory" => Some(masterMemory)
      case "worker_memory" => Some(workerMemory)
      case "master_vcpu" => Some(masterVcpu)
      case "worker_vcpu" => Some(workerVcpu)
      case "master_disk" => Some(masterDisk)
      case "worker_disk" => Some(workerDisk)
      case "master_disk_count" => Some(masterDiskCount)
      case "worker_disk_count" => Some(workerDiskCount)
      case "workers_count" => Some(workerCount)
      case _ => None
    }
  }

  function OperatorResources(operator: string, isSno: bool): Option<Resources> {
    match operator
    case "cnv" => Some(Resources(masterMemory := 150, workerMemory := 360, masterVcpu := 4, workerVcpu := 2))
    case "mtv" => Some(Resources(masterMemory := 1174, workerMemory := 1384, masterVcpu := 5, workerVcpu := 3))
    case "odf" => Some(Resources(
      masterMemory := 24000, workerMemory := 24000, masterVcpu := 12, workerVcpu := 12, masterDisk := 10 * GB,
      workerDisk := 25 * GB, masterDiskCount := 1, workerDiskCount := 1, workerCount := 4))
    case "lvm" => Some(Resources(masterMemory := 1200, masterVcpu := 1, workerVcpu := 1, masterDiskCount := 1))
    case "mce" => Some(
      if isSno then Resources(masterMemory := 33000, masterVcpu := 8)
      else Resources(masterMemory := 17000, workerMemory := 17000, masterVcpu := 8, workerVcpu := 6))
    case "openshift-ai" => Some(Resources(
      masterMemory := 40 * 1024, workerMemory := 64 * 1024, masterVcpu := 12, workerVcpu := 20, masterDisk := 100 * GB,
      workerDisk := 100 * GB, masterDiskCount := 1, workerDiskCount := 2, workerCount := 3))
    case "osc" => Some(
      if isSno then Resources(masterMemory := 16384, masterVcpu := 8)
      else Resources(masterMemory := 16384, workerMemory := 8192, masterVcpu := 4, workerVcpu := 2))
    case _ => None
  }

  /** None is the ValueError for an unknown operator or resource. */
  function Requirement(operator: string, isSno: bool, key: string): Option<nat> {
    match OperatorResources(operator, isSno)
    case Some(r) => r.Get(key)
    case None => None
  }

  /** The rule of `resource_param`. */
  function Raise(value: int, resource: nat): int {
    if value <= resource then value + resource else value
  }

  function RaiseAll(value: int, resources: seq<nat>): int
    decreases |resources|
  {
    if resources == [] then value else RaiseAll(Raise(value, resources[0]), resources[1..])
  }

  function Largest(resources: seq<nat>): nat {
    if resources == [] then 0
    else if resources[0] >= Largest(resources[1..]) then resources[0]
    else Largest(resources[1..])
  }

  lemma Members(resources: seq<nat>)
    requires resources != []
    ensures resources[0] in resources
    ensures forall r :: r in resources <==> r == resources[0] || r in resources[1..]
  {
  }

  lemma {:induction false} LargestIs(resources: seq<nat>)
    ensures forall r | r in resources :: r <= Largest(resources)
    ensures resources != [] ==> Largest(resources) in resources
  {
    if resources != [] {
      LargestIs(resources[1..]);
      Members(resources);
    }
  }

  lemma {:induction false} RaiseAllGrows(value: int, resources: seq<nat>)
    ensures value <= RaiseAll(value, resources)
    decreases |resources|
  {
    if resources != [] { RaiseAllGrows(Raise(value, resources[0]), resources[1..]); }
  }

  /** However the operators are ordered, a positive value ends strictly above
      every requirement, and no value ends above max(value, 2R) for the largest
      requirement R. */
  lemma {:induction false} RaisedWithinBounds(value: int, resources: seq<nat>)
    ensures var w := RaiseAll(value, resources);
      && value <= w && (w <= value || w <= 2 * Largest(resources))
      && (value > 0 ==> forall r | r in resources :: r < w)
    decreases |resources|
  {
    if resources != [] {
      var next := Raise(value, resources[0]);
      RaisedWithinBounds(next, resources[1..]);
      Members(resources);
    }
  }

  /** A value that no step changes. */
  lemma {:induction false} FixedIff(value: int, resources: seq<nat>)
    ensures RaiseAll(value, resources) == value <==> forall r | r in resources :: r > 0 ==> value > r
    decreases |resources|
  {
    if resources != [] {
      var next := Raise(value, resources[0]);
      Members(resources);
      RaiseAllGrows(next, resources[1..]);
      FixedIff(next, resources[1..]);
    }
  }

  /** There is no positive requirement, or the first one is matched by a later
      requirement at least as large. */
  predicate FirstPositiveMatched(resources: seq<nat>) {
    if resources == [] then true
    else if resources[0] == 0 then FirstPositiveMatched(resources[1..])
    else exists r | r in resources[1..] :: r >= resources[0]
  }

  /** A second pass over the same operators changes nothing exactly for a
      positive value or, from 0, when the first positive requirement, if any, is
      matched by a later one. */
  lemma SecondPassIff(value: nat, resources: seq<nat>)
    ensures RaiseAll(RaiseAll(value, resources), resources) == RaiseAll(value, resources) <==>
      value > 0 || FirstPositiveMatched(resources)
  {
    RaisedWithinBounds(value, resources);
    FixedIff(RaiseAll(value, resources), resources);
    FromZero(resources);
  }

  lemma {:induction false} FromZero(resources: seq<nat>)
    ensures (forall r | r in resources :: r > 0 ==> RaiseAll(0, resources) > r) <==> FirstPositiveMatched(resources)
  {
    if resources != [] {
      Members(resources);
      if resources[0] == 0 {
        FromZero(resources[1..]);
      } else {
        RaisedWithinBounds(resources[0], resources[1..]);
        RaisesIff(resources[0], resources[1..]);
      }
    }
  }

  /** A positive value moves exactly when some requirement reaches it. */
  lemma RaisesIff(value: int, resources: seq<nat>)
    requires value > 0
    ensures RaiseAll(value, resources) > value <==> exists r | r in resources :: r >= value
  {
    FixedIff(value, resources);
    RaiseAllGrows(value, resources);
  }
}
