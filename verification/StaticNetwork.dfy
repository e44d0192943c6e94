/** Static network data for hosts: MAC slices, bonds, VLANs, addresses and the
    default route, as generated from the tfvars. */
module StaticNetwork {
  import opened Sequences
  import opened Text
  import opened Cidr
  import opened AddressPlan

  // ---------- MAC addresses ----------

  /** How many MACs a controller generates for a list of nodes. */
  function MacCount(nodes: nat, isBonded: bool, slaves: nat): nat {
    if isBonded then nodes * slaves else nodes
  }

  /** Python's s[lo:hi]: bounds beyond the end are cut back. */
  function Slice<T>(s: seq<T>, lo: nat, hi: nat): seq<T> {
    var top := if hi < |s| then hi else |s|;
    if lo < top then s[lo..top] else []
  }

  /** The MACs of one bonded host. */
  function HostMacs(macs: seq<string>, slaves: nat, host: nat): seq<string> {
    Slice(macs, slaves * host, slaves * (host + 1))
  }

  function AllHostMacs(macs: seq<string>, slaves: nat, hosts: nat): seq<string> {
    if hosts == 0 then [] else AllHostMacs(macs, slaves, hosts - 1) + HostMacs(macs, slaves, hosts - 1)
  }

  lemma SliceConcat<T>(s: seq<T>, lo: nat, mid: nat, hi: nat)
    requires lo <= mid <= hi
    ensures Slice(s, lo, mid) + Slice(s, mid, hi) == Slice(s, lo, hi)
  {
  }

  lemma {:induction false} AllHostMacsIsSlice(macs: seq<string>, slaves: nat, hosts: nat)
    ensures AllHostMacs(macs, slaves, hosts) == Slice(macs, 0, slaves * hosts)
  {
    if hosts > 0 {
      AllHostMacsIsSlice(macs, slaves, hosts - 1);
      ScaleLeq(hosts - 1, hosts, slaves);
      assert (hosts - 1) * slaves == slaves * (hosts - 1) && hosts * slaves == slaves * hosts;
      SliceConcat(macs, 0, slaves * (hosts - 1), slaves * hosts);
    }
  }

  /** Put together in host order, the slices give the list back exactly when
      there are no more MACs than slaves for all hosts; with as many as were
      generated, each host gets one per slave. */
  lemma SlicesPartition(macs: seq<string>, slaves: nat, hosts: nat)
    ensures AllHostMacs(macs, slaves, hosts) == macs <==> |macs| <= slaves * hosts
    ensures |macs| == MacCount(hosts, true, slaves) ==>
      forall h | 0 <= h < hosts :: |HostMacs(macs, slaves, h)| == slaves
  {
    AllHostMacsIsSlice(macs, slaves, hosts);
    if |macs| == hosts * slaves {
      forall h | 0 <= h < hosts
        ensures |HostMacs(macs, slaves, h)| == slaves
      {
        ScaleLeq(h + 1, hosts, slaves);
        assert (h + 1) * slaves == slaves * (h + 1) == slaves * h + slaves;
      }
    }
  }

  // ---------- interfaces ----------

  /** An nmstate IP section: absent, disabled, or one static address. */
  datatype IpSection = Absent | Disabled | Static(ip: Ip, prefixLength: nat)

  datatype Link = Ethernet | Bond(mode: string, ports: seq<string>) | Vlan(baseIface: string, id: nat)

  datatype Interface = Interface(name: string, link: Link, ipv4: IpSection, ipv6: IpSection)

  datatype MacName = MacName(mac: string, nic: string)

  datatype Route = Route(destination: string, gateway: Ip, nextHop: string)

  datatype Host = Host(interfaces: seq<Interface>, route: Route, macMap: seq<MacName>)

  function Eth(i: nat): string {
    "eth" + Decimal(i)
  }

  function VlanName(parent: string, id: nat): string {
    parent + "." + Decimal(id)
  }

  /** network_address + 30 + host number. */
  function HostIp(cidr: IPNet, count: nat): Ip {
    Ip(cidr.v6, First(cidr) + 30 + count)
  }

  function IpDict(cidr: IPNet, count: nat): IpSection {
    Static(HostIp(cidr, count), cidr.prefix)
  }

  /** The two IP sections for a list of networks: the second network is looked
      at only behind an IPv4 one. */
  function IpSections(cidrs: seq<IPNet>, count: nat): (IpSection, IpSection)
    requires cidrs != []
  {
    if cidrs[0].v6 then (Absent, IpDict(cidrs[0], count))
    else (IpDict(cidrs[0], count), if |cidrs| > 1 then IpDict(cidrs[1], count) else Absent)
  }

  function Configured(name: string, link: Link, cidrs: seq<IPNet>, count: nat): Interface
    requires cidrs != []
  {
    var (ipv4, ipv6) := IpSections(cidrs, count);
    Interface(name, link, ipv4, ipv6)
  }

  function VlanInterface(parent: string, id: nat, cidrs: seq<IPNet>, count: nat): Interface
    requires cidrs != []
  {
    Configured(VlanName(parent, id), Vlan(parent, id), cidrs, count)
  }

  function Ports(start: nat, slaves: nat): (ports: seq<string>)
    ensures |ports| == slaves && forall i | 0 <= i < slaves :: ports[i] == Eth(start + i)
  {
    seq(slaves, i requires 0 <= i < slaves => Eth(start + i))
  }

  function BondInterface(name: string, start: nat, cidrs: seq<IPNet>, count: nat, slaves: nat, mode: string): Interface
    requires cidrs != []
  {
    Configured(name, Bond(mode, Ports(start, slaves)), cidrs, count)
  }

  datatype VlanChoice = NoVlan | OnVlan(id: nat)

  /** Base interface first, then its VLAN if any, then the secondary one. */
  function PlainInterfaces(machine: seq<IPNet>, provisioning: seq<IPNet>, count: nat, vlan: VlanChoice): seq<Interface>
    requires machine != [] && provisioning != []
  {
    var secondary := Configured("eth1", Ethernet, provisioning, count);
    match vlan
    case NoVlan => [Configured("eth0", Ethernet, machine, count), secondary]
    case OnVlan(id) =>
      [Interface("eth0", Ethernet, Disabled, Disabled), VlanInterface("eth0", id, machine, count), secondary]
  }

  /** The finished bond loses its IP sections again when a VLAN carries them. */
  function BondedInterfaces(
    machine: seq<IPNet>, provisioning: seq<IPNet>, count: nat, slaves: nat, mode: string, vlan: VlanChoice): seq<Interface>
    requires machine != [] && provisioning != []
  {
    var primary := BondInterface("bond0", 0, machine, count, slaves, mode);
    var secondary := BondInterface("bond1", slaves, provisioning, count, slaves, mode);
    match vlan
    case NoVlan => [primary, secondary]
    case OnVlan(id) =>
      [primary.(ipv4 := Disabled, ipv6 := Disabled), VlanInterface("bond0", id, machine, count), secondary]
  }

  function NextHop(parent: string, vlan: VlanChoice): string {
    match vlan
    case NoVlan => parent
    case OnVlan(id) => VlanName(parent, id)
  }

  function DefaultRoute(nextHop: string, machine: seq<IPNet>): Route
    requires machine != []
  {
    Route(if machine[0].v6 then "::/0" else "0.0.0.0/0", Ip(machine[0].v6, First(machine[0]) + 1), nextHop)
  }

  function NamedMacs(macs: seq<string>, start: nat): (named: seq<MacName>)
    ensures |named| == |macs| && forall i | 0 <= i < |macs| :: named[i] == MacName(macs[i], Eth(start + i))
  {
    seq(|macs|, i requires 0 <= i < |macs| => MacName(macs[i], Eth(start + i)))
  }

  function BondedHost(
    primary: seq<string>, secondary: seq<string>, machine: seq<IPNet>, provisioning: seq<IPNet>,
    count: nat, slaves: nat, mode: string, vlan: VlanChoice): Host
    requires machine != [] && provisioning != []
  {
    Host(
      BondedInterfaces(machine, provisioning, count, slaves, mode, vlan),
      DefaultRoute(NextHop("bond0", vlan), machine),
      NamedMacs(primary, 0) + NamedMacs(secondary, |primary|))
  }

  function PlainHost(
    primary: string, secondary: string, machine: seq<IPNet>, provisioning: seq<IPNet>, count: nat, vlan: VlanChoice): Host
    requires machine != [] && provisioning != []
  {
    Host(
      PlainInterfaces(machine, provisioning, count, vlan),
      DefaultRoute(NextHop("eth0", vlan), machine),
      [MacName(primary, "eth0"), MacName(secondary, "eth1")])
  }

  // ---------- the generator loops ----------

  datatype Tfvars = Tfvars(
    masterCount: nat, workerCount: nat,
    masterMacs: seq<string>, workerMacs: seq<string>, secondaryMasterMacs: seq<string>, secondaryWorkerMacs: seq<string>,
    machine: seq<IPNet>, provisioning: seq<IPNet>)

  datatype BondChoice = BondChoice(slaves: nat, mode: string)

  /** The host of a given number: masters first, then workers, numbered on. */
  function BondedHostNumber(t: Tfvars, b: BondChoice, vlan: VlanChoice, h: nat): Host
    requires t.machine != [] && t.provisioning != []
  {
    if h < t.masterCount then
      BondedHost(
        HostMacs(t.masterMacs, b.slaves, h), HostMacs(t.secondaryMasterMacs, b.slaves, h),
        t.machine, t.provisioning, h, b.slaves, b.mode, vlan)
    else
      BondedHost(
        HostMacs(t.workerMacs, b.slaves, h - t.masterCount), HostMacs(t.secondaryWorkerMacs, b.slaves, h - t.masterCount),
        t.machine, t.provisioning, h, b.slaves, b.mode, vlan)
  }

  method GenerateBonded(t: Tfvars, b: BondChoice, vlan: VlanChoice) returns (hosts: seq<Host>)
    requires t.machine != [] && t.provisioning != []
    ensures |hosts| == t.masterCount + t.workerCount
    ensures forall h | 0 <= h < |hosts| :: hosts[h] == BondedHostNumber(t, b, vlan, h)
  {
    hosts := BondedMasters(t, b, vlan);
    for count := 0 to t.workerCount
      invariant |hosts| == t.masterCount + count
      invariant forall h | 0 <= h < |hosts| :: hosts[h] == BondedHostNumber(t, b, vlan, h)
    {
      var host := PrepareBondedHost(
        HostMacs(t.workerMacs, b.slaves, count), HostMacs(t.secondaryWorkerMacs, b.slaves, count), t, b,
        t.masterCount + count, vlan);
      hosts := hosts + [host];
    }
  }

  method BondedMasters(t: Tfvars, b: BondChoice, vlan: VlanChoice) returns (hosts: seq<Host>)
    requires t.machine != [] && t.provisioning != []
    ensures |hosts| == t.masterCount
    ensures forall h | 0 <= h < |hosts| :: hosts[h] == BondedHostNumber(t, b, vlan, h)
  {
    hosts := [];
    for count := 0 to t.masterCount
      invariant |hosts| == count
      invariant forall h | 0 <= h < count :: hosts[h] == BondedHostNumber(t, b, vlan, h)
    {
      var host := PrepareBondedHost(
        HostMacs(t.masterMacs, b.slaves, count), HostMacs(t.secondaryMasterMacs, b.slaves, count), t, b, count, vlan);
      hosts := hosts + [host];
    }
  }

  /** One MAC of each kind for every host, as indexing the lists demands. */
  predicate EnoughMacs(t: Tfvars) {
    && t.masterCount <= |t.masterMacs| && t.masterCount <= |t.secondaryMasterMacs|
    && t.workerCount <= |t.workerMacs| && t.workerCount <= |t.secondaryWorkerMacs|
  }

  /** The host of a given number on a cluster without bonds. */
  function PlainHostNumber(t: Tfvars, vlan: VlanChoice, h: nat): Host
    requires t.machine != [] && t.provisioning != [] && EnoughMacs(t) && h < t.masterCount + t.workerCount
  {
    if h < t.masterCount then
      PlainHost(t.masterMacs[h], t.secondaryMasterMacs[h], t.machine, t.provisioning, h, vlan)
    else
      PlainHost(
        t.workerMacs[h - t.masterCount], t.secondaryWorkerMacs[h - t.masterCount], t.machine, t.provisioning, h, vlan)
  }

  method GeneratePlain(t: Tfvars, vlan: VlanChoice) returns (hosts: seq<Host>)
    requires t.machine != [] && t.provisioning != [] && EnoughMacs(t)
    ensures |hosts| == t.masterCount + t.workerCount
    ensures forall h | 0 <= h < |hosts| :: hosts[h] == PlainHostNumber(t, vlan, h)
  {
    hosts := PlainMasters(t, vlan);
    for count := 0 to t.workerCount
      invariant |hosts| == t.masterCount + count
      invariant forall h | 0 <= h < |hosts| :: hosts[h] == PlainHostNumber(t, vlan, h)
    {
      var host := PlainHost(
        t.workerMacs[count], t.secondaryWorkerMacs[count], t.machine, t.provisioning, t.masterCount + count, vlan);
      hosts := hosts + [host];
    }
  }

  method PlainMasters(t: Tfvars, vlan: VlanChoice) returns (hosts: seq<Host>)
    requires t.machine != [] && t.provisioning != [] && EnoughMacs(t)
    ensures |hosts| == t.masterCount
    ensures forall h | 0 <= h < |hosts| :: hosts[h] == PlainHostNumber(t, vlan, h)
  {
    hosts := [];
    for count := 0 to t.masterCount
      invariant |hosts| == count
      invariant forall h | 0 <= h < count :: hosts[h] == PlainHostNumber(t, vlan, h)
    {
      var host := PlainHost(
        t.masterMacs[count], t.secondaryMasterMacs[count], t.machine, t.provisioning, count, vlan);
      hosts := hosts + [host];
    }
  }

  method PrepareBondedHost(
    primary: seq<string>, secondary: seq<string>, t: Tfvars, b: BondChoice, count: nat, vlan: VlanChoice) returns (host: Host)
    requires t.machine != [] && t.provisioning != []
    ensures host == BondedHost(primary, secondary, t.machine, t.provisioning, count, b.slaves, b.mode, vlan)
  {
    var macMap := AppendNames([], primary, 0);
    macMap := AppendNames(macMap, secondary, |primary|);
    assert [] + NamedMacs(primary, 0) == NamedMacs(primary, 0);
    host := Host(
      BondedInterfaces(t.machine, t.provisioning, count, b.slaves, b.mode, vlan),
      DefaultRoute(NextHop("bond0", vlan), t.machine),
      macMap);
  }

  /** The append loops that build the MAC map. */
  method AppendNames(before: seq<MacName>, macs: seq<string>, start: nat) returns (named: seq<MacName>)
    ensures named == before + NamedMacs(macs, start)
  {
    named := before;
    for i := 0 to |macs|
      invariant named == before + NamedMacs(macs, start)[..i]
    {
      named := named + [MacName(macs[i], Eth(i + start))];
    }
  }

  // ---------- bonds and MAC maps agree ----------

  lemma EthInjective(i: nat, j: nat)
    requires Eth(i) == Eth(j)
    ensures i == j
  {
    assert Eth(i)[3..] == Decimal(i) && Eth(j)[3..] == Decimal(j);
    DecimalInjective(i, j);
  }

  function NamesOf(macMap: seq<MacName>): (names: seq<string>)
    ensures |names| == |macMap| && forall i | 0 <= i < |macMap| :: names[i] == macMap[i].nic
  {
    seq(|macMap|, i requires 0 <= i < |macMap| => macMap[i].nic)
  }

  function BondPorts(i: Interface): seq<string> {
    if i.link.Bond? then i.link.ports else []
  }

  /** The primary bond lists exactly the names given to the primary MACs and the
      secondary bond those given to the secondary MACs, in order, if and only if
      there is one MAC of each per slave. */
  lemma BondPortsMatchMacs(primary: seq<string>, secondary: seq<string>, slaves: nat)
    ensures
      NamesOf(NamedMacs(primary, 0)) == Ports(0, slaves) && NamesOf(NamedMacs(secondary, |primary|)) == Ports(slaves, slaves)
      <==> |primary| == slaves && |secondary| == slaves
  {
    var a := NamesOf(NamedMacs(primary, 0));
    var b := NamesOf(NamedMacs(secondary, |primary|));
    if |primary| == slaves && |secondary| == slaves {
      assert a == Ports(0, slaves);
      assert b == Ports(slaves, slaves);
    } else if a == Ports(0, slaves) && b == Ports(slaves, slaves) {
      assert |a| == |primary| && |b| == |secondary|;
    }
  }

  /** No NIC belongs to both bonds of a host, and no two MACs share a name. */
  lemma NicsNamedOnce(primary: seq<string>, secondary: seq<string>, slaves: nat)
    ensures forall p | p in Ports(0, slaves) :: p !in Ports(slaves, slaves)
    ensures Distinct(NamesOf(NamedMacs(primary, 0) + NamedMacs(secondary, |primary|)))
  {
    forall i, j | 0 <= i < slaves && 0 <= j < slaves
      ensures Ports(0, slaves)[i] != Ports(slaves, slaves)[j]
    {
      if Eth(i) == Eth(slaves + j) { EthInjective(i, slaves + j); }
    }
    var names := NamesOf(NamedMacs(primary, 0) + NamedMacs(secondary, |primary|));
    forall i, j | 0 <= i < j < |names|
      ensures names[i] != names[j]
    {
      assert names[i] == Eth(i) && names[j] == Eth(j);
      if Eth(i) == Eth(j) { EthInjective(i, j); }
    }
  }

  /** In the generated data of a bonded cluster with as many MACs as were
      generated, every host's bonds and MAC map name the same interfaces, and the
      hosts' MACs are the generated lists, cut up. */
  lemma BondedHostsAgree(t: Tfvars, b: BondChoice, vlan: VlanChoice, h: nat)
    requires t.machine != [] && t.provisioning != [] && h < t.masterCount + t.workerCount
    requires |t.masterMacs| == MacCount(t.masterCount, true, b.slaves) == |t.secondaryMasterMacs|
    requires |t.workerMacs| == MacCount(t.workerCount, true, b.slaves) == |t.secondaryWorkerMacs|
    ensures AllHostMacs(t.masterMacs, b.slaves, t.masterCount) == t.masterMacs
    ensures AllHostMacs(t.workerMacs, b.slaves, t.workerCount) == t.workerMacs
    ensures var host := BondedHostNumber(t, b, vlan, h);
      && |host.macMap| == 2 * b.slaves
      && host.interfaces[0].name == "bond0" && BondPorts(host.interfaces[0]) == NamesOf(host.macMap[..b.slaves])
      && var last := host.interfaces[|host.interfaces| - 1];
      last.name == "bond1" && BondPorts(last) == NamesOf(host.macMap[b.slaves..])
  {
    SlicesPartition(t.masterMacs, b.slaves, t.masterCount);
    SlicesPartition(t.workerMacs, b.slaves, t.workerCount);
    SlicesPartition(t.secondaryMasterMacs, b.slaves, t.masterCount);
    SlicesPartition(t.secondaryWorkerMacs, b.slaves, t.workerCount);
    assert t.masterCount * b.slaves == b.slaves * t.masterCount && t.workerCount * b.slaves == b.slaves * t.workerCount;
    var primary :=
      if h < t.masterCount then HostMacs(t.masterMacs, b.slaves, h) else HostMacs(t.workerMacs, b.slaves, h - t.masterCount);
    var secondary :=
      if h < t.masterCount then HostMacs(t.secondaryMasterMacs, b.slaves, h)
      else HostMacs(t.secondaryWorkerMacs, b.slaves, h - t.masterCount);
    OneBondedHost(primary, secondary, t, b, vlan, h);
  }

  lemma OneBondedHost(primary: seq<string>, secondary: seq<string>, t: Tfvars, b: BondChoice, vlan: VlanChoice, h: nat)
    requires t.machine != [] && t.provisioning != []
    requires |primary| == |secondary| == b.slaves
    ensures var host := BondedHost(primary, secondary, t.machine, t.provisioning, h, b.slaves, b.mode, vlan);
      && |host.macMap| == 2 * b.slaves
      && host.interfaces[0].name == "bond0" && BondPorts(host.interfaces[0]) == NamesOf(host.macMap[..b.slaves])
      && var last := host.interfaces[|host.interfaces| - 1];
      last.name == "bond1" && BondPorts(last) == NamesOf(host.macMap[b.slaves..])
  {
    var macMap := NamedMacs(primary, 0) + NamedMacs(secondary, |primary|);
    assert macMap[..b.slaves] == NamedMacs(primary, 0);
    assert macMap[b.slaves..] == NamedMacs(secondary, |primary|);
    BondPortsMatchMacs(primary, secondary, b.slaves);
  }

  /** Without bonds the two MACs are named after the first and the last
      interface, VLAN or not. */
  lemma PlainHostAgrees(t: Tfvars, vlan: VlanChoice, h: nat)
    requires t.machine != [] && t.provisioning != []
    requires |t.masterMacs| == |t.secondaryMasterMacs| == MacCount(t.masterCount, false, 0)
    requires |t.workerMacs| == |t.secondaryWorkerMacs| == MacCount(t.workerCount, false, 0)
    requires h < t.masterCount + t.workerCount
    ensures var host := PlainHostNumber(t, vlan, h);
      && |host.macMap| == 2
      && host.macMap[0] == MacName((t.masterMacs + t.workerMacs)[h], host.interfaces[0].name)
      && host.macMap[1] ==
        MacName((t.secondaryMasterMacs + t.secondaryWorkerMacs)[h], host.interfaces[|host.interfaces| - 1].name)
  {
  }

  // ---------- addresses ----------

  predicate Carries(i: Interface, ip: Ip) {
    (i.ipv4.Static? && i.ipv4.ip == ip) || (i.ipv6.Static? && i.ipv6.ip == ip)
  }

  lemma VlanNameDiffers(parent: string, id: nat)
    ensures VlanName(parent, id) != parent && |VlanName(parent, id)| >= |parent| + 2
  {
  }

  /** With or without bonds and VLAN, exactly one interface bears the name of the
      default route's next hop, and it carries the host's address in the first
      machine network, of the route's own family; with a VLAN its parent carries
      none. */
  lemma NextHopCarriesHostAddress(
    machine: seq<IPNet>, provisioning: seq<IPNet>, count: nat, slaves: nat, mode: string, vlan: VlanChoice, bonded: bool)
    requires machine != [] && provisioning != []
    ensures var interfaces :=
        if bonded then BondedInterfaces(machine, provisioning, count, slaves, mode, vlan)
        else PlainInterfaces(machine, provisioning, count, vlan);
      var route := DefaultRoute(NextHop(if bonded then "bond0" else "eth0", vlan), machine);
      && (exists i | 0 <= i < |interfaces| :: interfaces[i].name == route.nextHop)
      && (forall i | 0 <= i < |interfaces| && interfaces[i].name == route.nextHop ::
          && Carries(interfaces[i], HostIp(machine[0], count))
          && (route.destination == "::/0" <==> interfaces[i].ipv4 == Absent)
          && forall j | 0 <= j < |interfaces| :: interfaces[j].name == route.nextHop ==> i == j)
      && (vlan.OnVlan? ==> interfaces[0].ipv4 == interfaces[0].ipv6 == Disabled)
      && route.gateway != HostIp(machine[0], count)
  {
    var parent := if bonded then "bond0" else "eth0";
    var interfaces :=
      if bonded then BondedInterfaces(machine, provisioning, count, slaves, mode, vlan)
      else PlainInterfaces(machine, provisioning, count, vlan);
    assert "bond0"[4] != "bond1"[4] && "eth0"[3] != "eth1"[3];
    match vlan
    case NoVlan =>
      assert interfaces[0].name == parent;
    case OnVlan(id) =>
      VlanNameDiffers(parent, id);
      assert interfaces[1].name == VlanName(parent, id);
  }

  /** The next hop's interface carries the host's address in every machine
      network of the stack, unless both families are on with IPv6 as primary:
      behind an IPv6 network the second one is dropped. */
  lemma HostsReachEveryStackIff(
    s: Stack, a: NetAsset, provisioning: seq<IPNet>, count: nat, slaves: nat, mode: string, vlan: VlanChoice, bonded: bool)
    requires (s.isIpv4 || s.isIpv6) && !a.machineCidr.v6 && a.machineCidr6.v6 && provisioning != []
    ensures var machine := AllMachineAddresses(s, a);
      var interfaces :=
        if bonded then BondedInterfaces(machine, provisioning, count, slaves, mode, vlan)
        else PlainInterfaces(machine, provisioning, count, vlan);
      && machine[0] == PrimaryMachineCidr(s, a)
      && ((exists i | 0 <= i < |interfaces| ::
            && interfaces[i].name == NextHop(if bonded then "bond0" else "eth0", vlan)
            && forall n | n in machine :: Carries(interfaces[i], HostIp(n, count)))
          <==> !(s.isIpv4 && s.isIpv6 && s.primary == "ipv6"))
  {
    var machine := AllMachineAddresses(s, a);
    var parent := if bonded then "bond0" else "eth0";
    var interfaces :=
      if bonded then BondedInterfaces(machine, provisioning, count, slaves, mode, vlan)
      else PlainInterfaces(machine, provisioning, count, vlan);
    NextHopCarriesHostAddress(machine, provisioning, count, slaves, mode, vlan, bonded);
    var k := if vlan.NoVlan? then 0 else 1;
    assert "bond0"[4] != "bond1"[4] && "eth0"[3] != "eth1"[3];
    if vlan.OnVlan? {
      VlanNameDiffers(parent, vlan.id);
    }
    assert forall i | 0 <= i < |interfaces| :: interfaces[i].name == NextHop(parent, vlan) <==> i == k;
    CoveredIff(machine, count, interfaces[k]);
  }

  lemma CoveredIff(machine: seq<IPNet>, count: nat, i: Interface)
    requires 1 <= |machine| <= 2 && (|machine| == 2 ==> machine[0].v6 != machine[1].v6)
    requires i == Configured(i.name, i.link, machine, count)
    ensures (forall n | n in machine :: Carries(i, HostIp(n, count))) <==> |machine| == 1 || !machine[0].v6
  {
    assert machine[0] in machine;
    assert |machine| == 2 ==> machine[1] in machine;
  }

  /** The address the first interface of that name carries in one family. */
  function AddressOn(interfaces: seq<Interface>, name: string, v6: bool): Option<Ip> {
    if interfaces == [] then None
    else if interfaces[0].name != name then AddressOn(interfaces[1..], name, v6)
    else match if v6 then interfaces[0].ipv6 else interfaces[0].ipv4
      case Static(ip, _) => Some(ip)
      case _ => None
  }

  /** What a host answers on behind its default route. */
  function HostAddress(host: Host): Option<Ip> {
    AddressOn(host.interfaces, host.route.nextHop, host.route.destination == "::/0")
  }

  lemma BondedAddress(
    primary: seq<string>, secondary: seq<string>, machine: seq<IPNet>, provisioning: seq<IPNet>,
    count: nat, slaves: nat, mode: string, vlan: VlanChoice)
    requires machine != [] && provisioning != []
    ensures HostAddress(BondedHost(primary, secondary, machine, provisioning, count, slaves, mode, vlan)) ==
      Some(HostIp(machine[0], count))
  {
    var host := BondedHost(primary, secondary, machine, provisioning, count, slaves, mode, vlan);
    RouteFamily(machine, host.route.nextHop);
    FirstOrSecond(host.interfaces, host.route, vlan);
  }

  lemma PlainAddress(
    primary: string, secondary: string, machine: seq<IPNet>, provisioning: seq<IPNet>, count: nat, vlan: VlanChoice)
    requires machine != [] && provisioning != []
    ensures HostAddress(PlainHost(primary, secondary, machine, provisioning, count, vlan)) == Some(HostIp(machine[0], count))
  {
    var host := PlainHost(primary, secondary, machine, provisioning, count, vlan);
    RouteFamily(machine, host.route.nextHop);
    FirstOrSecond(host.interfaces, host.route, vlan);
  }

  lemma RouteFamily(machine: seq<IPNet>, nextHop: string)
    requires machine != []
    ensures DefaultRoute(nextHop, machine).destination == "::/0" <==> machine[0].v6
  {
    assert |"::/0"| != |"0.0.0.0/0"|;
  }

  lemma FirstOrSecond(interfaces: seq<Interface>, route: Route, vlan: VlanChoice)
    requires |interfaces| >= 2
    requires interfaces[0].name == route.nextHop || (vlan.OnVlan? && route.nextHop == VlanName(interfaces[0].name, vlan.id))
    requires vlan.NoVlan? ==> interfaces[0].name == route.nextHop
    requires vlan.OnVlan? ==> interfaces[1].name == VlanName(interfaces[0].name, vlan.id) == route.nextHop
    ensures var v6 := route.destination == "::/0";
      AddressOn(interfaces, route.nextHop, v6) == AddressOn([interfaces[if vlan.NoVlan? then 0 else 1]], route.nextHop, v6)
  {
    if vlan.OnVlan? {
      VlanNameDiffers(interfaces[0].name, vlan.id);
      assert interfaces[1..][0] == interfaces[1];
    }
  }

  /** What the generators produce, by their contracts. */
  ghost predicate Generated(t: Tfvars, b: Option<BondChoice>, vlan: VlanChoice, hosts: seq<Host>)
    requires t.machine != [] && t.provisioning != [] && (b.None? ==> EnoughMacs(t))
  {
    && |hosts| == t.masterCount + t.workerCount
    && forall h | 0 <= h < |hosts| ::
      hosts[h] == match b case Some(choice) => BondedHostNumber(t, choice, vlan, h) case None => PlainHostNumber(t, vlan, h)
  }

  /** The hosts' answers, masters then workers. */
  function HostAddresses(hosts: seq<Host>): (addresses: seq<Option<Ip>>)
    ensures |addresses| == |hosts| && forall h | 0 <= h < |hosts| :: addresses[h] == HostAddress(hosts[h])
  {
    seq(|hosts|, h requires 0 <= h < |hosts| => HostAddress(hosts[h]))
  }

  lemma GeneratedAddress(t: Tfvars, b: Option<BondChoice>, vlan: VlanChoice, h: nat)
    requires t.machine != [] && t.provisioning != [] && h < t.masterCount + t.workerCount
    requires b.None? ==> EnoughMacs(t)
    ensures HostAddress(
      match b case Some(choice) => BondedHostNumber(t, choice, vlan, h) case None => PlainHostNumber(t, vlan, h)) ==
      Some(HostIp(t.machine[0], h))
  {
    match b
    case Some(choice) =>
      var master := h < t.masterCount;
      var i := if master then h else h - t.masterCount;
      BondedAddress(
        HostMacs(if master then t.masterMacs else t.workerMacs, choice.slaves, i),
        HostMacs(if master then t.secondaryMasterMacs else t.secondaryWorkerMacs, choice.slaves, i),
        t.machine, t.provisioning, h, choice.slaves, choice.mode, vlan);
    case None =>
      if h < t.masterCount {
        PlainAddress(t.masterMacs[h], t.secondaryMasterMacs[h], t.machine, t.provisioning, h, vlan);
      } else {
        var i := h - t.masterCount;
        PlainAddress(t.workerMacs[i], t.secondaryWorkerMacs[i], t.machine, t.provisioning, h, vlan);
      }
  }

  lemma SameMembers(addresses: seq<Option<Ip>>, ips: seq<Ip>)
    requires |addresses| == |ips| && forall h | 0 <= h < |ips| :: addresses[h] == Some(ips[h])
    ensures forall ip :: Some(ip) in addresses <==> ip in ips
    ensures None !in addresses
    ensures Distinct(addresses) <==> Distinct(ips)
  {
    forall ip | ip in ips
      ensures Some(ip) in addresses
    {
      var h :| 0 <= h < |ips| && ips[h] == ip;
      assert addresses[h] == Some(ip);
    }
  }

  lemma AddressesAre(t: Tfvars, b: Option<BondChoice>, vlan: VlanChoice, hosts: seq<Host>)
    requires t.machine != [] && t.provisioning != [] && (b.None? ==> EnoughMacs(t))
    requires Generated(t, b, vlan, hosts)
    ensures forall h | 0 <= h < |hosts| :: HostAddresses(hosts)[h] == Some(HostIp(t.machine[0], h))
  {
    forall h | 0 <= h < |hosts|
      ensures HostAddresses(hosts)[h] == Some(HostIp(t.machine[0], h))
    {
      GeneratedAddress(t, b, vlan, h);
    }
  }

  lemma AddressesAreClear(n: IPNet, addresses: seq<Option<Ip>>)
    requires forall h | 0 <= h < |addresses| :: addresses[h] == Some(HostIp(n, h))
    ensures None !in addresses && Distinct(addresses)
    ensures Some(Vip(n, 100)) !in addresses && Some(Vip(n, 101)) !in addresses <==> |addresses| <= 70
    ensures (forall ip | Some(ip) in addresses :: Within(n, ip)) <==> |addresses| == 0 || |addresses| + 30 <= Size(n)
  {
    RangeIsClear(n, 30, |addresses|);
    SameMembers(addresses, Range(Ip(n.v6, First(n) + 30), |addresses|));
  }

  /** Generated hosts, bonded or not, on a VLAN or not, answer on distinct
      addresses behind their default routes, clear of the VIPs +100 and +101
      exactly for at most 70 hosts, and inside the network exactly when it is
      large enough. */
  lemma HostsAvoidVips(t: Tfvars, b: Option<BondChoice>, vlan: VlanChoice, hosts: seq<Host>)
    requires t.machine != [] && t.provisioning != [] && (b.None? ==> EnoughMacs(t))
    requires Generated(t, b, vlan, hosts)
    ensures var n := t.machine[0];
      var addresses := HostAddresses(hosts);
      && None !in addresses && Distinct(addresses)
      && (Some(Vip(n, 100)) !in addresses && Some(Vip(n, 101)) !in addresses <==> |hosts| <= 70)
      && ((forall ip | Some(ip) in addresses :: Within(n, ip)) <==> |hosts| == 0 || |hosts| + 30 <= Size(n))
  {
    AddressesAre(t, b, vlan, hosts);
    AddressesAreClear(t.machine[0], HostAddresses(hosts));
  }

  // ---------- what a host is given ----------

  /** The interface has this address of the family, with this prefix length. */
  predicate Holds(i: Interface, ip: Ip, prefixLength: nat) {
    (if ip.v6 then i.ipv6 else i.ipv4) == Static(ip, prefixLength)
  }

  /** A generated host: its primary interface (the VLAN one, if there is one) has
      address +30+h of the first machine network, its secondary interface that
      of the first provisioning network, each with the prefix length of its
      network; the gateway is +1 of the machine network. */
  lemma HostGets(t: Tfvars, b: Option<BondChoice>, vlan: VlanChoice, hosts: seq<Host>, h: nat)
    requires t.machine != [] && t.provisioning != [] && (b.None? ==> EnoughMacs(t))
    requires Generated(t, b, vlan, hosts) && h < |hosts|
    ensures var host := hosts[h];
      var m := t.machine[0];
      var p := t.provisioning[0];
      && |host.interfaces| == (if vlan.NoVlan? then 2 else 3)
      && Holds(host.interfaces[|host.interfaces| - 2], Ip(m.v6, First(m) + 30 + h), m.prefix)
      && Holds(host.interfaces[|host.interfaces| - 1], Ip(p.v6, First(p) + 30 + h), p.prefix)
      && host.route.gateway == Ip(m.v6, First(m) + 1)
      && host.route.destination == (if m.v6 then "::/0" else "0.0.0.0/0")
      && host.route.nextHop == host.interfaces[|host.interfaces| - 2].name
  {
  }

  /** A second network behind an IPv4 one is served by the same interface. */
  lemma SecondFamilyGets(t: Tfvars, b: Option<BondChoice>, vlan: VlanChoice, hosts: seq<Host>, h: nat)
    requires t.provisioning != [] && (b.None? ==> EnoughMacs(t))
    requires |t.machine| > 1 && !t.machine[0].v6 && t.machine[1].v6
    requires Generated(t, b, vlan, hosts) && h < |hosts|
    ensures var host := hosts[h];
      var m := t.machine[1];
      |host.interfaces| >= 2 &&
      Holds(host.interfaces[|host.interfaces| - 2], Ip(true, First(m) + 30 + h), m.prefix)
  {
  }

  /** Names and links: eth0 and eth1, or bonds over the first and the next slaves
      in the mode asked for; with a VLAN its interface is named after parent and
      id and the parent itself has no address. */
  lemma HostLinks(t: Tfvars, b: Option<BondChoice>, vlan: VlanChoice, hosts: seq<Host>, h: nat)
    requires t.machine != [] && t.provisioning != [] && (b.None? ==> EnoughMacs(t))
    requires Generated(t, b, vlan, hosts) && h < |hosts|
    ensures var ifs := hosts[h].interfaces;
      var last := |ifs| - 1;
      && |ifs| >= 2
      && ifs[0].name == (if b.Some? then "bond0" else "eth0") && ifs[last].name == (if b.Some? then "bond1" else "eth1")
      && (b.None? ==> ifs[0].link == ifs[last].link == Ethernet)
      && (vlan.OnVlan? ==>
          && |ifs| == 3 && ifs[0].ipv4 == ifs[0].ipv6 == Disabled
          && ifs[1].link == Vlan(ifs[0].name, vlan.id) && ifs[1].name == ifs[0].name + "." + Decimal(vlan.id))
      && (b.Some? ==>
          && ifs[0].link.Bond? && ifs[0].link.mode == b.value.mode && |ifs[0].link.ports| == b.value.slaves
          && ifs[last].link.Bond? && ifs[last].link.mode == b.value.mode && |ifs[last].link.ports| == b.value.slaves
          && forall s: nat | s < b.value.slaves ::
            && ifs[0].link.ports[s] == "eth" + Decimal(s)
            && ifs[last].link.ports[s] == "eth" + Decimal(b.value.slaves + s))
  {
  }

  /** The MACs of one half of a host's map stand together in a list. */
  predicate IsShare(macs: seq<string>, start: nat, part: seq<MacName>) {
    start + |part| <= |macs| && forall s | 0 <= s < |part| :: part[s].mac == macs[start + s]
  }

  function ShareStart(slaves: nat, i: nat): nat {
    slaves * i
  }

  lemma OneHostMacs(
    primary: seq<string>, secondary: seq<string>, macs: seq<string>, more: seq<string>, start: nat, slaves: nat, host: Host)
    requires |primary| == slaves == |secondary|
    requires host.macMap == NamedMacs(primary, 0) + NamedMacs(secondary, |primary|)
    requires IsShare(macs, start, NamedMacs(primary, 0)) && IsShare(more, start, NamedMacs(secondary, |primary|))
    ensures HasShares(host, macs, more, start, slaves)
  {
    MapShares(primary, secondary, macs, more, start);
  }

  /** The host's first MACs are a share of one list, the rest of another. */
  predicate HasShares(host: Host, macs: seq<string>, more: seq<string>, start: nat, slaves: nat) {
    && |host.macMap| == 2 * slaves
    && IsShare(macs, start, host.macMap[..slaves])
    && IsShare(more, start, host.macMap[slaves..])
  }

  lemma ShareNamed(macs: seq<string>, slaves: nat, hosts: nat, i: nat, first: nat)
    requires |macs| == MacCount(hosts, true, slaves) && i < hosts
    ensures |HostMacs(macs, slaves, i)| == slaves
    ensures IsShare(macs, ShareStart(slaves, i), NamedMacs(HostMacs(macs, slaves, i), first))
  {
    SlicesPartition(macs, slaves, hosts);
    ScaleLeq(i + 1, hosts, slaves);
    assert (i + 1) * slaves == slaves * i + slaves == slaves * (i + 1);
  }

  lemma MapShares(primary: seq<string>, secondary: seq<string>, macs: seq<string>, more: seq<string>, start: nat)
    requires IsShare(macs, start, NamedMacs(primary, 0))
    requires IsShare(more, start, NamedMacs(secondary, |primary|))
    ensures var macMap := NamedMacs(primary, 0) + NamedMacs(secondary, |primary|);
      IsShare(macs, start, macMap[..|primary|]) && IsShare(more, start, macMap[|primary|..])
  {
    var macMap := NamedMacs(primary, 0) + NamedMacs(secondary, |primary|);
    assert macMap[..|primary|] == NamedMacs(primary, 0);
    assert macMap[|primary|..] == NamedMacs(secondary, |primary|);
  }

  /** Host number i of a bonded cluster, counted among the masters or among the
      workers, has the i-th share of their list, in order, and of their list of
      secondary MACs. */
  lemma BondedHostMacs(t: Tfvars, b: BondChoice, vlan: VlanChoice, i: nat, start: nat)
    requires t.machine != [] && t.provisioning != [] && start == b.slaves * i
    requires |t.masterMacs| == MacCount(t.masterCount, true, b.slaves) == |t.secondaryMasterMacs|
    requires |t.workerMacs| == MacCount(t.workerCount, true, b.slaves) == |t.secondaryWorkerMacs|
    ensures i < t.masterCount ==>
      HasShares(BondedHostNumber(t, b, vlan, i), t.masterMacs, t.secondaryMasterMacs, start, b.slaves)
    ensures i < t.workerCount ==>
      HasShares(BondedHostNumber(t, b, vlan, t.masterCount + i), t.workerMacs, t.secondaryWorkerMacs, start, b.slaves)
  {
    assert start == ShareStart(b.slaves, i);
    if i < t.masterCount {
      BondedShares(t.masterMacs, t.secondaryMasterMacs, t.masterCount, b.slaves, i, BondedHostNumber(t, b, vlan, i));
    }
    if i < t.workerCount {
      BondedShares(
        t.workerMacs, t.secondaryWorkerMacs, t.workerCount, b.slaves, i, BondedHostNumber(t, b, vlan, t.masterCount + i));
    }
  }

  lemma BondedShares(macs: seq<string>, more: seq<string>, hosts: nat, slaves: nat, i: nat, host: Host)
    requires |macs| == MacCount(hosts, true, slaves) == |more| && i < hosts
    requires var primary := HostMacs(macs, slaves, i);
      host.macMap == NamedMacs(primary, 0) + NamedMacs(HostMacs(more, slaves, i), |primary|)
    ensures HasShares(host, macs, more, ShareStart(slaves, i), slaves)
  {
    var primary := HostMacs(macs, slaves, i);
    ShareNamed(macs, slaves, hosts, i, 0);
    ShareNamed(more, slaves, hosts, i, |primary|);
    OneHostMacs(primary, HostMacs(more, slaves, i), macs, more, ShareStart(slaves, i), slaves, host);
  }
}
