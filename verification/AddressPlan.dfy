/** The address plan a Terraform controller writes: node addresses, VIPs and the
    order of machine networks per stack configuration. */
module AddressPlan {
  import opened Sequences
  import opened Text
  import opened Cidr

  datatype Ip = Ip(v6: bool, value: nat)

  /** ip_network() refuses an address with host bits set. */
  predicate IsNetwork(n: IPNet) {
    First(n) == n.value
  }

  predicate InSpace(v6: bool, value: nat) {
    value < Pow2(Width(v6))
  }

  /** network_address + k; None is the error of ip_network() or of `+`. */
  function AddressAt(n: IPNet, k: nat): Option<Ip> {
    if IsNetwork(n) && InSpace(n.v6, First(n) + k) then Some(Ip(n.v6, First(n) + k)) else None
  }

  predicate Within(n: IPNet, ip: Ip) {
    ip.v6 == n.v6 && HasAddress(n, ip.value)
  }

  // ---------- address lists ----------

  function Range(start: Ip, count: nat): (ips: seq<Ip>)
    ensures |ips| == count && forall i | 0 <= i < count :: ips[i] == Ip(start.v6, start.value + i)
  {
    seq(count, i requires 0 <= i < count => Ip(start.v6, start.value + i))
  }

  /** create_ip_address_list; None is the error past the last address. */
  function CreateIpAddressList(count: nat, start: Ip): Option<seq<Ip>> {
    if count > 0 && !InSpace(start.v6, start.value + count - 1) then None else Some(Range(start, count))
  }

  function Nested(ips: seq<Ip>): seq<seq<Ip>> {
    seq(|ips|, i requires 0 <= i < |ips| => [ips[i]])
  }

  /** `_create_address_list`: empty entries whenever IPv6 is enabled; its
      decorator turns an error into None. */
  function CreateAddressList(count: nat, start: Ip, isIpv6: bool): Option<seq<seq<Ip>>> {
    if isIpv6 then Some(seq(count, _ => []))
    else match CreateIpAddressList(count, start)
      case None => None
      case Some(ips) => Some(Nested(ips))
  }

  datatype Counts = Counts(masters: nat, workers: nat, arbiters: nat)

  function Total(c: Counts): nat {
    c.masters + c.workers + c.arbiters
  }

  /** None is the entry left by an error that the decorator swallowed. */
  type NodeList = Option<seq<seq<Ip>>>

  datatype NodeLists = NodeLists(masters: NodeList, workers: NodeList, arbiters: NodeList)

  /** The three address lists of one network; None when a starting address does
      not exist. */
  function NodeListsOf(n: IPNet, c: Counts, isIpv6: bool): Option<NodeLists> {
    match (AddressAt(n, 10), AddressAt(n, 10 + c.masters), AddressAt(n, 10 + c.masters + c.workers))
    case (Some(master), Some(worker), Some(arbiter)) =>
      Some(NodeLists(
        CreateAddressList(c.masters, master, isIpv6),
        CreateAddressList(c.workers, worker, isIpv6),
        CreateAddressList(c.arbiters, arbiter, isIpv6)))
    case _ => None
  }

  // ---------- node addresses ----------

  function Flat(lists: seq<seq<Ip>>): seq<Ip> {
    if lists == [] then [] else lists[0] + Flat(lists[1..])
  }

  lemma {:induction false} FlatNested(ips: seq<Ip>)
    ensures Flat(Nested(ips)) == ips
  {
    if ips != [] {
      assert Nested(ips)[1..] == Nested(ips[1..]);
      FlatNested(ips[1..]);
    }
  }

  lemma RangesConcat(start: Ip, m: nat, n: nat)
    ensures Range(start, m) + Range(Ip(start.v6, start.value + m), n) == Range(start, m + n)
  {
  }

  lemma OneList(start: Ip, count: nat, space: nat)
    requires space == Pow2(Width(start.v6)) && start.value + count <= space
    ensures CreateAddressList(count, start, false) == Some(Nested(Range(start, count)))
  {
  }

  function Middle(start: Ip, c: Counts): Ip {
    Ip(start.v6, start.value + c.masters)
  }

  function End(start: Ip, c: Counts): Ip {
    Ip(start.v6, start.value + c.masters + c.workers)
  }

  function PlainLists(start: Ip, c: Counts): NodeLists {
    NodeLists(
      CreateAddressList(c.masters, start, false),
      CreateAddressList(c.workers, Ip(start.v6, start.value + c.masters), false),
      CreateAddressList(c.arbiters, Ip(start.v6, start.value + c.masters + c.workers), false))
  }

  lemma PlainListsAre(start: Ip, c: Counts, space: nat)
    requires space == Pow2(Width(start.v6)) && start.value + Total(c) <= space
    ensures PlainLists(start, c) == NodeLists(
      Some(Nested(Range(start, c.masters))),
      Some(Nested(Range(Middle(start, c), c.workers))),
      Some(Nested(Range(End(start, c), c.arbiters))))
  {
    OneList(start, c.masters, space);
    OneList(Middle(start, c), c.workers, space);
    OneList(End(start, c), c.arbiters, space);
  }

  lemma FlatsJoin(start: Ip, c: Counts)
    ensures
      Flat(Nested(Range(start, c.masters)))
      + Flat(Nested(Range(Middle(start, c), c.workers)))
      + Flat(Nested(Range(End(start, c), c.arbiters))) == Range(start, Total(c))
  {
    FlatNested(Range(start, c.masters));
    FlatNested(Range(Middle(start, c), c.workers));
    FlatNested(Range(End(start, c), c.arbiters));
    ThreeRanges(start, Middle(start, c), End(start, c), c.masters, c.workers, c.arbiters);
  }

  lemma StartsExist(n: IPNet, c: Counts)
    ensures NodeListsOf(n, c, false) ==
      if IsNetwork(n) && InSpace(n.v6, First(n) + 10 + c.masters + c.workers)
      then Some(PlainLists(Ip(n.v6, First(n) + 10), c)) else None
  {
  }

  lemma ThreeRanges(start: Ip, middle: Ip, end: Ip, m: nat, w: nat, a: nat)
    requires middle == Ip(start.v6, start.value + m) && end == Ip(start.v6, start.value + (m + w))
    ensures Range(start, m) + Range(middle, w) + Range(end, a) == Range(start, m + w + a)
  {
    RangesConcat(start, m, w);
    RangesConcat(start, m + w, a);
  }

  predicate Complete(r: Option<NodeLists>) {
    r.Some? && r.value.masters.Some? && r.value.workers.Some? && r.value.arbiters.Some?
  }

  lemma LastListEnds(start: Ip, c: Counts, space: nat)
    requires space == Pow2(Width(start.v6)) && start.value + c.masters + c.workers < space
    ensures PlainLists(start, c).arbiters.Some? <==> start.value + Total(c) <= space
  {
  }

  /** Without IPv6, all three lists come out exactly when the first address after
      the workers exists and the last arbiter's does. Then they are one run of
      consecutive addresses from network address + 10 on, cut where the counts
      say. */
  lemma NodeAddresses(n: IPNet, c: Counts)
    ensures var r := NodeListsOf(n, c, false);
      && (Complete(r) <==>
          && IsNetwork(n)
          && First(n) + 10 + c.masters + c.workers < Pow2(Width(n.v6))
          && First(n) + 10 + Total(c) <= Pow2(Width(n.v6)))
      && (Complete(r) ==>
          var lists := r.value;
          && |lists.masters.value| == c.masters
          && |lists.workers.value| == c.workers
          && |lists.arbiters.value| == c.arbiters
          && Flat(lists.masters.value) + Flat(lists.workers.value) + Flat(lists.arbiters.value) ==
            Range(Ip(n.v6, First(n) + 10), Total(c)))
  {
    var start := Ip(n.v6, First(n) + 10);
    var space := Pow2(Width(n.v6));
    StartsExist(n, c);
    if IsNetwork(n) && start.value + c.masters + c.workers < space {
      LastListEnds(start, c, space);
      if start.value + Total(c) <= space {
        PlainListsAre(start, c, space);
        FlatsJoin(start, c);
      }
    }
  }

  /** With IPv6 enabled every node gets an empty entry and none an address. */
  lemma NoAddressesWithIpv6(n: IPNet, c: Counts)
    requires NodeListsOf(n, c, true).Some?
    ensures var lists := NodeListsOf(n, c, true).value;
      && lists.masters.Some? && lists.workers.Some? && lists.arbiters.Some?
      && |lists.masters.value| == c.masters
      && |lists.workers.value| == c.workers
      && |lists.arbiters.value| == c.arbiters
      && Flat(lists.masters.value) == Flat(lists.workers.value) == Flat(lists.arbiters.value) == []
  {
    FlatEmpty(NodeListsOf(n, c, true).value.masters.value);
    FlatEmpty(NodeListsOf(n, c, true).value.workers.value);
    FlatEmpty(NodeListsOf(n, c, true).value.arbiters.value);
  }

  lemma {:induction false} FlatEmpty(lists: seq<seq<Ip>>)
    requires forall i | 0 <= i < |lists| :: lists[i] == []
    ensures Flat(lists) == []
  {
    if lists != [] { FlatEmpty(lists[1..]); }
  }

  function Vip(n: IPNet, k: nat): Ip {
    Ip(n.v6, First(n) + k)
  }

  /** Consecutive addresses from an offset: distinct, inside the network exactly
      when it is large enough, clear of the VIPs exactly when they end below. */
  lemma RangeIsClear(n: IPNet, offset: nat, count: nat)
    requires offset <= 100
    ensures var ips := Range(Ip(n.v6, First(n) + offset), count);
      && Distinct(ips)
      && ((forall ip | ip in ips :: Within(n, ip)) <==> count == 0 || offset + count <= Size(n))
      && (Vip(n, 100) !in ips && Vip(n, 101) !in ips <==> offset + count <= 100)
  {
    var ips := Range(Ip(n.v6, First(n) + offset), count);
    if count > 0 {
      assert ips[count - 1] in ips;
    }
    if offset + count > 100 {
      assert ips[100 - offset] == Vip(n, 100);
    }
  }

  // ---------- stacks ----------

  datatype NetAsset = NetAsset(machineCidr: IPNet, machineCidr6: IPNet, provisioningCidr: IPNet, provisioningCidr6: IPNet)

  datatype Stack = Stack(isIpv4: bool, isIpv6: bool, primary: string)

  function PrimaryMachineCidr(s: Stack, a: NetAsset): IPNet {
    if s.primary == "ipv6" && s.isIpv4 && s.isIpv6 then a.machineCidr6
    else if s.isIpv6 && !s.isIpv4 then a.machineCidr6
    else a.machineCidr
  }

  function ProvisioningCidr(s: Stack, a: NetAsset): IPNet {
    if s.primary == "ipv6" && s.isIpv4 && s.isIpv6 then a.provisioningCidr6
    else if s.isIpv6 && !s.isIpv4 then a.provisioningCidr6
    else a.provisioningCidr
  }

  function AllMachineAddresses(s: Stack, a: NetAsset): seq<IPNet> {
    var v4 := if s.isIpv4 then [a.machineCidr] else [];
    var v6 := if s.isIpv6 then [a.machineCidr6] else [];
    if s.primary == "ipv6" && s.isIpv4 && s.isIpv6 then v6 + v4 else v4 + v6
  }

  function AllProvisioningAddresses(s: Stack, a: NetAsset): seq<IPNet> {
    (if s.isIpv4 then [a.provisioningCidr] else []) + (if s.isIpv6 then [a.provisioningCidr6] else [])
  }

  datatype Vips = Vips(api: seq<Ip>, ingress: seq<Ip>)

  /** Two addresses from network address + 100 on. */
  function VipPair(n: IPNet): Option<seq<Ip>> {
    match AddressAt(n, 100)
    case None => None
    case Some(ip) => CreateIpAddressList(2, ip)
  }

  function IngressAndApiVips(s: Stack, a: NetAsset): Option<Vips> {
    if s.isIpv4 && s.isIpv6 then
      match (VipPair(a.machineCidr), VipPair(a.machineCidr6))
      case (Some(v4), Some(v6)) =>
        if s.primary == "ipv6" then Some(Vips([v6[0], v4[0]], [v6[1], v4[1]]))
        else Some(Vips([v4[0], v6[0]], [v4[1], v6[1]]))
      case _ => None
    else
      match VipPair(PrimaryMachineCidr(s, a))
      case Some(ips) => Some(Vips([ips[0]], [ips[1]]))
      case None => None
  }

  /** For every enabled stack and primary-stack choice there is one pair of VIPs
      per machine network, in the same order, inside it exactly when it has at
      least 102 addresses. */
  lemma VipsMatchNetworks(s: Stack, a: NetAsset)
    requires s.isIpv4 || s.isIpv6
    requires IngressAndApiVips(s, a).Some?
    ensures var vips := IngressAndApiVips(s, a).value;
      var nets := AllMachineAddresses(s, a);
      && |vips.api| == |vips.ingress| == |nets|
      && forall k | 0 <= k < |nets| ::
        && vips.api[k] == Vip(nets[k], 100) && vips.ingress[k] == Vip(nets[k], 101)
        && (Within(nets[k], vips.api[k]) && Within(nets[k], vips.ingress[k]) <==> Size(nets[k]) >= 102)
  {
    VipPairIs(a.machineCidr);
    VipPairIs(a.machineCidr6);
  }

  lemma VipPairIs(n: IPNet)
    ensures VipPair(n).Some? ==> VipPair(n).value == [Vip(n, 100), Vip(n, 101)]
  {
  }

  /** There are VIPs exactly when every machine network has no host bits set and
      its address +101 exists. */
  lemma VipsExistIff(s: Stack, a: NetAsset)
    requires s.isIpv4 || s.isIpv6
    ensures IngressAndApiVips(s, a).Some? <==>
      forall n | n in AllMachineAddresses(s, a) :: First(n) == n.value && First(n) + 101 < Pow2(Width(n.v6))
  {
    VipPairExists(a.machineCidr);
    VipPairExists(a.machineCidr6);
    assert s.isIpv4 ==> a.machineCidr in AllMachineAddresses(s, a);
    assert s.isIpv6 ==> a.machineCidr6 in AllMachineAddresses(s, a);
  }

  lemma VipPairExists(n: IPNet)
    ensures VipPair(n).Some? <==> First(n) == n.value && First(n) + 101 < Pow2(Width(n.v6))
  {
  }

  /** Networks of at least 102 addresses without host bits always yield VIPs. */
  lemma VipsExist(s: Stack, a: NetAsset)
    requires forall n | n in [a.machineCidr, a.machineCidr6] :: IsNetwork(n) && Size(n) >= 102
    ensures IngressAndApiVips(s, a).Some?
  {
    assert a.machineCidr in [a.machineCidr, a.machineCidr6];
    assert a.machineCidr6 in [a.machineCidr, a.machineCidr6];
    BlockFits(a.machineCidr);
    BlockFits(a.machineCidr6);
    VipPairExists(a.machineCidr);
    VipPairExists(a.machineCidr6);
  }

  /** The provisioning networks are always listed IPv4 first, so the primary one
      heads them except for a dual stack with IPv6 as primary. */
  lemma PrimaryProvisioningComesFirstIff(s: Stack, a: NetAsset)
    requires (s.isIpv4 || s.isIpv6) && a.provisioningCidr != a.provisioningCidr6
    ensures AllProvisioningAddresses(s, a)[0] == ProvisioningCidr(s, a) <==>
      !(s.isIpv4 && s.isIpv6 && s.primary == "ipv6")
  {
  }

  // ---------- the tfvars ----------

  datatype Names = Names(masters: string, workers: string, arbiters: string)

  const PRIMARY_NAMES := Names("libvirt_master_ips", "libvirt_worker_ips", "libvirt_arbiter_ips")
  const SECONDARY_NAMES :=
    Names("libvirt_secondary_master_ips", "libvirt_secondary_worker_ips", "libvirt_secondary_arbiter_ips")

  datatype Entry = Nodes(list: NodeList) | Networks(nets: seq<IPNet>) | Addresses(ips: seq<Ip>)

  function Named(lists: NodeLists, names: Names): map<string, Entry> {
    map[names.masters := Nodes(lists.masters), names.workers := Nodes(lists.workers), names.arbiters := Nodes(lists.arbiters)]
  }

  /** `_get_vips`: configured VIPs replace the computed ones, which are computed
      in any case. */
  function ChosenVips(configured: Vips, computed: Vips): Vips {
    Vips(
      if configured.api != [] then configured.api else computed.api,
      if configured.ingress != [] then configured.ingress else computed.ingress)
  }

  function StackEntries(s: Stack, a: NetAsset, vips: Vips): map<string, Entry> {
    map[
      "machine_cidr_addresses" := Networks(AllMachineAddresses(s, a)),
      "provisioning_cidr_addresses" := Networks(AllProvisioningAddresses(s, a)),
      "api_vips" := Addresses(vips.api),
      "ingress_vips" := Addresses(vips.ingress)]
  }

  /** The address entries of the dictionary: computed ones first, then the
      user's parameters over them, then the lists of the secondary network over
      both. None is an address that does not exist. */
  function Tfvars(s: Stack, a: NetAsset, c: Counts, configured: Vips, params: map<string, Entry>): Option<map<string, Entry>> {
    match (
      NodeListsOf(PrimaryMachineCidr(s, a), c, s.isIpv6),
      IngressAndApiVips(s, a),
      NodeListsOf(ProvisioningCidr(s, a), c, s.isIpv6))
    case (Some(primary), Some(vips), Some(secondary)) =>
      Some(
        Named(primary, PRIMARY_NAMES) + StackEntries(s, a, ChosenVips(configured, vips)) + params
        + Named(secondary, SECONDARY_NAMES))
    case _ => None
  }

  method FillTfvars(s: Stack, a: NetAsset, c: Counts, configured: Vips, params: map<string, Entry>)
    returns (r: Option<map<string, Entry>>)
    ensures r == Tfvars(s, a, c, configured, params)
  {
    var machine := PrimaryMachineCidr(s, a);
    var master := AddressAt(machine, 10);
    var worker := AddressAt(machine, 10 + c.masters);
    var arbiter := AddressAt(machine, 10 + c.masters + c.workers);
    if master.None? || worker.None? || arbiter.None? {
      return None;
    }
    var tfvars: map<string, Entry> := map[];
    tfvars := tfvars["libvirt_master_ips" := Nodes(CreateAddressList(c.masters, master.value, s.isIpv6))];
    tfvars := tfvars["libvirt_worker_ips" := Nodes(CreateAddressList(c.workers, worker.value, s.isIpv6))];
    tfvars := tfvars["libvirt_arbiter_ips" := Nodes(CreateAddressList(c.arbiters, arbiter.value, s.isIpv6))];
    ghost var primary := NodeListsOf(machine, c, s.isIpv6).value;
    assert tfvars == Named(primary, PRIMARY_NAMES);
    tfvars := tfvars["machine_cidr_addresses" := Networks(AllMachineAddresses(s, a))];
    tfvars := tfvars["provisioning_cidr_addresses" := Networks(AllProvisioningAddresses(s, a))];
    var vips := IngressAndApiVips(s, a);
    if vips.None? {
      return None;
    }
    var chosen := ChosenVips(configured, vips.value);
    tfvars := tfvars["api_vips" := Addresses(chosen.api)];
    tfvars := tfvars["ingress_vips" := Addresses(chosen.ingress)];
    assert tfvars == Named(primary, PRIMARY_NAMES) + StackEntries(s, a, chosen);
    tfvars := tfvars + params;
    var secondary := NodeListsOf(ProvisioningCidr(s, a), c, s.isIpv6);
    if secondary.None? {
      return None;
    }
    tfvars := tfvars + Named(secondary.value, SECONDARY_NAMES);
    return Some(tfvars);
  }

  // ---------- node addresses against VIPs ----------

  function FlatNodes(lists: NodeLists): seq<Ip>
    requires lists.masters.Some? && lists.workers.Some? && lists.arbiters.Some?
  {
    Flat(lists.masters.value) + Flat(lists.workers.value) + Flat(lists.arbiters.value)
  }

  /** The lists one network gives: distinct addresses, in the network exactly
      when it is large enough, clear of its VIPs exactly for at most 90 nodes. */
  lemma ListsAvoidVips(n: IPNet, c: Counts)
    requires Complete(NodeListsOf(n, c, false))
    ensures var ips := FlatNodes(NodeListsOf(n, c, false).value);
      && Distinct(ips) && |ips| == Total(c)
      && (Vip(n, 100) !in ips && Vip(n, 101) !in ips <==> Total(c) <= 90)
      && ((forall ip | ip in ips :: Within(n, ip)) <==> Total(c) == 0 || Total(c) + 10 <= Size(n))
  {
    NodeAddresses(n, c);
    RangeIsClear(n, 10, Total(c));
  }

  /** The three primary lists of a dictionary. */
  function ListsIn(t: map<string, Entry>): Option<NodeLists> {
    if PRIMARY_NAMES.masters in t && PRIMARY_NAMES.workers in t && PRIMARY_NAMES.arbiters in t then
      match (t[PRIMARY_NAMES.masters], t[PRIMARY_NAMES.workers], t[PRIMARY_NAMES.arbiters])
      case (Nodes(m), Nodes(w), Nodes(a)) => Some(NodeLists(m, w, a))
      case _ => None
    else None
  }

  predicate PrimaryKey(key: string) {
    key in [PRIMARY_NAMES.masters, PRIMARY_NAMES.workers, PRIMARY_NAMES.arbiters, "api_vips", "ingress_vips"]
  }

  /** In the dictionary as written, unless the user gave lists or VIPs: no node
      address is a VIP, exactly when IPv6 is on, where nodes get no addresses,
      or there are at most 90 nodes. */
  lemma NodesAvoidVips(s: Stack, a: NetAsset, c: Counts, params: map<string, Entry>)
    requires var r := Tfvars(s, a, c, Vips([], []), params); r.Some? && Complete(ListsIn(r.value))
    requires forall key | key in params :: !PrimaryKey(key)
    ensures var t := Tfvars(s, a, c, Vips([], []), params).value;
      var nodes := FlatNodes(ListsIn(t).value);
      && Distinct(nodes) && |nodes| == (if s.isIpv6 then 0 else Total(c))
      && "api_vips" in t && t["api_vips"].Addresses? && "ingress_vips" in t && t["ingress_vips"].Addresses?
      && ((forall ip | ip in nodes :: ip !in t["api_vips"].ips && ip !in t["ingress_vips"].ips) <==>
          s.isIpv6 || Total(c) <= 90)
  {
    var n := PrimaryMachineCidr(s, a);
    EntriesWritten(s, a, c, params);
    if s.isIpv6 {
      NoAddressesWithIpv6(n, c);
    } else {
      ListsAvoidVips(n, c);
      VipPairIs(n);
    }
  }

  lemma NamesDiffer()
    ensures Distinct([PRIMARY_NAMES.masters, PRIMARY_NAMES.workers, PRIMARY_NAMES.arbiters])
    ensures forall lists: NodeLists, key | PrimaryKey(key) :: key !in Named(lists, SECONDARY_NAMES)
  {
    assert "libvirt_master_ips"[8] != "libvirt_worker_ips"[8];
    assert |"libvirt_arbiter_ips"| != |"libvirt_worker_ips"|;
  }

  /** Before parameters and secondary lists. */
  lemma BaseEntries(primary: NodeLists, s: Stack, a: NetAsset, vips: Vips)
    ensures var t := Named(primary, PRIMARY_NAMES) + StackEntries(s, a, vips);
      && (forall key | PrimaryKey(key) :: key in t)
      && ListsIn(t) == Some(primary)
      && t["api_vips"] == Addresses(vips.api) && t["ingress_vips"] == Addresses(vips.ingress)
  {
    NamesDiffer();
  }

  lemma Kept(base: map<string, Entry>, params: map<string, Entry>, over: map<string, Entry>)
    requires forall key | PrimaryKey(key) :: key in base && key !in params && key !in over
    ensures forall key | PrimaryKey(key) :: key in base + params + over && (base + params + over)[key] == base[key]
    ensures ListsIn(base + params + over) == ListsIn(base)
  {
    assert PrimaryKey(PRIMARY_NAMES.masters) && PrimaryKey(PRIMARY_NAMES.workers) && PrimaryKey(PRIMARY_NAMES.arbiters);
  }

  lemma EntriesWritten(s: Stack, a: NetAsset, c: Counts, params: map<string, Entry>)
    requires var r := Tfvars(s, a, c, Vips([], []), params); r.Some?
    requires forall key | key in params :: !PrimaryKey(key)
    ensures var t := Tfvars(s, a, c, Vips([], []), params).value;
      && ListsIn(t) == NodeListsOf(PrimaryMachineCidr(s, a), c, s.isIpv6)
      && "api_vips" in t && t["api_vips"] == Addresses(IngressAndApiVips(s, a).value.api)
      && "ingress_vips" in t && t["ingress_vips"] == Addresses(IngressAndApiVips(s, a).value.ingress)
  {
    var primary := NodeListsOf(PrimaryMachineCidr(s, a), c, s.isIpv6).value;
    var secondary := NodeListsOf(ProvisioningCidr(s, a), c, s.isIpv6).value;
    var vips := IngressAndApiVips(s, a).value;
    NamesDiffer();
    BaseEntries(primary, s, a, vips);
    assert PrimaryKey("api_vips") && PrimaryKey("ingress_vips");
    Kept(Named(primary, PRIMARY_NAMES) + StackEntries(s, a, vips), params, Named(secondary, SECONDARY_NAMES));
  }

  // ---------- what the dictionary says ----------

  /** The networks of each stack, one case a line. */
  lemma StackNetworks(a: NetAsset, primary: string)
    ensures var s := Stack(true, false, primary);
      && PrimaryMachineCidr(s, a) == a.machineCidr && AllMachineAddresses(s, a) == [a.machineCidr]
      && ProvisioningCidr(s, a) == a.provisioningCidr && AllProvisioningAddresses(s, a) == [a.provisioningCidr]
    ensures var s := Stack(false, true, primary);
      && PrimaryMachineCidr(s, a) == a.machineCidr6 && AllMachineAddresses(s, a) == [a.machineCidr6]
      && ProvisioningCidr(s, a) == a.provisioningCidr6 && AllProvisioningAddresses(s, a) == [a.provisioningCidr6]
    ensures var s := Stack(true, true, primary);
      var six := primary == "ipv6";
      && PrimaryMachineCidr(s, a) == (if six then a.machineCidr6 else a.machineCidr)
      && AllMachineAddresses(s, a) == (if six then [a.machineCidr6, a.machineCidr] else [a.machineCidr, a.machineCidr6])
      && ProvisioningCidr(s, a) == (if six then a.provisioningCidr6 else a.provisioningCidr)
      && AllProvisioningAddresses(s, a) == [a.provisioningCidr, a.provisioningCidr6]
  {
  }

  predicate SecondaryKey(key: string) {
    key in ["libvirt_secondary_master_ips", "libvirt_secondary_worker_ips", "libvirt_secondary_arbiter_ips"]
  }

  /** A parameter of the user replaces any computed entry but the lists of the
      secondary network. */
  lemma ParametersPrevail(s: Stack, a: NetAsset, c: Counts, configured: Vips, params: map<string, Entry>, key: string)
    requires key in params && !SecondaryKey(key) && Tfvars(s, a, c, configured, params).Some?
    ensures var t := Tfvars(s, a, c, configured, params).value; key in t && t[key] == params[key]
  {
  }

  /** Three entries are one run of consecutive addresses from +10 of a network on,
      cut where the counts say. */
  predicate RunOf(n: IPNet, c: Counts, masters: Entry, workers: Entry, arbiters: Entry) {
    && masters.Nodes? && masters.list.Some? && |masters.list.value| == c.masters
    && workers.Nodes? && workers.list.Some? && |workers.list.value| == c.workers
    && arbiters.Nodes? && arbiters.list.Some? && |arbiters.list.value| == c.arbiters
    && Flat(masters.list.value) + Flat(workers.list.value) + Flat(arbiters.list.value) ==
      Range(Ip(n.v6, First(n) + 10), c.masters + c.workers + c.arbiters)
  }

  lemma ListsRun(n: IPNet, c: Counts)
    requires Complete(NodeListsOf(n, c, false))
    ensures var lists := NodeListsOf(n, c, false).value;
      RunOf(n, c, Nodes(lists.masters), Nodes(lists.workers), Nodes(lists.arbiters))
  {
    NodeAddresses(n, c);
  }

  /** Without IPv6 the secondary lists are those of the IPv4 provisioning network,
      whatever the parameters. */
  lemma SecondaryListsWritten(s: Stack, a: NetAsset, c: Counts, configured: Vips, params: map<string, Entry>)
    requires !s.isIpv6 && Tfvars(s, a, c, configured, params).Some?
    requires Complete(NodeListsOf(a.provisioningCidr, c, false))
    ensures var t := Tfvars(s, a, c, configured, params).value;
      && (forall key | SecondaryKey(key) :: key in t)
      && SecondaryKey("libvirt_secondary_master_ips") && SecondaryKey("libvirt_secondary_worker_ips")
      && SecondaryKey("libvirt_secondary_arbiter_ips")
      && RunOf(a.provisioningCidr, c,
        t["libvirt_secondary_master_ips"], t["libvirt_secondary_worker_ips"], t["libvirt_secondary_arbiter_ips"])
  {
    assert ProvisioningCidr(s, a) == a.provisioningCidr;
    ListsRun(a.provisioningCidr, c);
    SecondaryNamed(NodeListsOf(a.provisioningCidr, c, false).value);
  }

  lemma SecondaryNamed(lists: NodeLists)
    ensures var t := Named(lists, SECONDARY_NAMES);
      && (forall key :: key in t <==> SecondaryKey(key))
      && t["libvirt_secondary_master_ips"] == Nodes(lists.masters)
      && t["libvirt_secondary_worker_ips"] == Nodes(lists.workers)
      && t["libvirt_secondary_arbiter_ips"] == Nodes(lists.arbiters)
  {
    assert "libvirt_secondary_master_ips"[18] != "libvirt_secondary_worker_ips"[18];
    assert |"libvirt_secondary_arbiter_ips"| != |"libvirt_secondary_worker_ips"|;
  }

  /** The primary lists are those of the IPv4 machine network, unless a parameter
      replaces them. */
  lemma PrimaryListsWritten(s: Stack, a: NetAsset, c: Counts, params: map<string, Entry>)
    requires !s.isIpv6 && Tfvars(s, a, c, Vips([], []), params).Some?
    requires forall key | key in params :: !PrimaryKey(key)
    requires Complete(NodeListsOf(a.machineCidr, c, false))
    ensures var t := Tfvars(s, a, c, Vips([], []), params).value;
      && "libvirt_master_ips" in t && "libvirt_worker_ips" in t && "libvirt_arbiter_ips" in t
      && RunOf(a.machineCidr, c, t["libvirt_master_ips"], t["libvirt_worker_ips"], t["libvirt_arbiter_ips"])
  {
    assert PrimaryMachineCidr(s, a) == a.machineCidr;
    EntriesWritten(s, a, c, params);
    ListsRun(a.machineCidr, c);
    ListsAre(Tfvars(s, a, c, Vips([], []), params).value);
  }

  lemma ListsAre(t: map<string, Entry>)
    requires ListsIn(t).Some?
    ensures "libvirt_master_ips" in t && t["libvirt_master_ips"] == Nodes(ListsIn(t).value.masters)
    ensures "libvirt_worker_ips" in t && t["libvirt_worker_ips"] == Nodes(ListsIn(t).value.workers)
    ensures "libvirt_arbiter_ips" in t && t["libvirt_arbiter_ips"] == Nodes(ListsIn(t).value.arbiters)
  {
  }

  lemma ComputedStands(s: Stack, a: NetAsset, c: Counts, configured: Vips, params: map<string, Entry>, key: string)
    requires Tfvars(s, a, c, configured, params).Some? && IngressAndApiVips(s, a).Some?
    requires key !in params && !SecondaryKey(key)
    requires key in StackEntries(s, a, ChosenVips(configured, IngressAndApiVips(s, a).value))
    ensures var t := Tfvars(s, a, c, configured, params).value;
      key in t && t[key] == StackEntries(s, a, ChosenVips(configured, IngressAndApiVips(s, a).value))[key]
  {
  }

  /** VIPs and networks in the dictionary, unless a parameter replaces them:
      configured VIPs where there are any, computed ones of either kind where
      there are none. */
  lemma VipsWritten(s: Stack, a: NetAsset, c: Counts, configured: Vips, params: map<string, Entry>)
    requires Tfvars(s, a, c, configured, params).Some? && IngressAndApiVips(s, a).Some?
    ensures var t := Tfvars(s, a, c, configured, params).value;
      var computed := IngressAndApiVips(s, a).value;
      && ("api_vips" !in params ==>
          "api_vips" in t && t["api_vips"] == Addresses(if configured.api == [] then computed.api else configured.api))
      && ("ingress_vips" !in params ==>
          && "ingress_vips" in t
          && t["ingress_vips"] == Addresses(if configured.ingress == [] then computed.ingress else configured.ingress))
  {
    if "api_vips" !in params { ComputedStands(s, a, c, configured, params, "api_vips"); }
    if "ingress_vips" !in params { ComputedStands(s, a, c, configured, params, "ingress_vips"); }
  }

  lemma NetworksWritten(s: Stack, a: NetAsset, c: Counts, configured: Vips, params: map<string, Entry>)
    requires Tfvars(s, a, c, configured, params).Some? && IngressAndApiVips(s, a).Some?
    ensures var t := Tfvars(s, a, c, configured, params).value;
      && ("machine_cidr_addresses" !in params ==>
          "machine_cidr_addresses" in t && t["machine_cidr_addresses"] == Networks(AllMachineAddresses(s, a)))
      && ("provisioning_cidr_addresses" !in params ==>
          "provisioning_cidr_addresses" in t && t["provisioning_cidr_addresses"] == Networks(AllProvisioningAddresses(s, a)))
  {
    if "machine_cidr_addresses" !in params {
      ComputedStands(s, a, c, configured, params, "machine_cidr_addresses");
    }
    if "provisioning_cidr_addresses" !in params {
      ComputedStands(s, a, c, configured, params, "provisioning_cidr_addresses");
    }
  }
}
