/** LibvirtNetworkAssets: networks and bridge names handed out to parallel test
    runs through one shared assets file. Each of `Get` and `ReleaseAll` holds
    the file lock from its first to its last file access, so it is one step. */
module NetworkAssets {
  import opened Sequences
  import opened Text
  import opened Cidr
  import opened NetworkSearch

  /** machine_cidr, machine_cidr6, provisioning_cidr, provisioning_cidr6. */
  const IP_NETWORK_FIELDS: nat := 4

  datatype RawAsset = Asset(cidrs: seq<IPNet>, networkIf: string, secondaryIf: string)

  type Asset = a: RawAsset | |a.cidrs| == IP_NETWORK_FIELDS
    witness Asset([Net(false, 0, 0), Net(false, 0, 0), Net(false, 0, 0), Net(false, 0, 0)], "tt1", "stt1")

  function CidrsOf(assets: seq<Asset>): seq<IPNet> {
    if assets == [] then [] else assets[0].cidrs + CidrsOf(assets[1..])
  }

  function BridgesOf(assets: seq<Asset>): seq<string> {
    if assets == [] then [] else [assets[0].networkIf, assets[0].secondaryIf] + BridgesOf(assets[1..])
  }

  lemma {:induction false} AssetFieldsListed(assets: seq<Asset>, i: nat)
    requires i < |assets|
    ensures forall n | n in assets[i].cidrs :: n in CidrsOf(assets)
    ensures assets[i].networkIf in BridgesOf(assets) && assets[i].secondaryIf in BridgesOf(assets)
  {
    if i > 0 { AssetFieldsListed(assets[1..], i - 1); }
  }

  lemma {:induction false} FieldsOfAppend(assets: seq<Asset>, a: Asset)
    ensures CidrsOf(assets + [a]) == CidrsOf(assets) + a.cidrs
    ensures BridgesOf(assets + [a]) == BridgesOf(assets) + [a.networkIf, a.secondaryIf]
  {
    if assets == [] {
      assert assets + [a] == [a];
    } else {
      FieldsOfAppend(assets[1..], a);
      assert (assets + [a])[1..] == assets[1..] + [a];
    }
  }

  // ---------- networks ----------

  /** The fields filled before the search ran off the address space, if it did. */
  datatype Placement = Placement(placed: seq<IPNet>, complete: bool)

  function Place(cidrs: seq<IPNet>, used: seq<IPNet>): (p: Placement)
    ensures |p.placed| <= |cidrs|
    ensures p.complete <==> |p.placed| == |cidrs|
  {
    if cidrs == [] then Placement([], true)
    else match NextFree(cidrs[0], used)
      case None => Placement([], false)
      case Some(n) =>
        var rest := Place(cidrs[1..], used + [n]);
        Placement([n] + rest.placed, rest.complete)
  }

  /** Each placed network misses all used objects and all fields before it. */
  lemma {:induction false} PlacedAreFree(cidrs: seq<IPNet>, used: seq<IPNet>, k: nat)
    requires k < |Place(cidrs, used).placed|
    ensures var placed := Place(cidrs, used).placed;
      && SameKind(placed[k], cidrs[k])
      && !Allocated(placed[k], used + placed[..k])
  {
    var placed := Place(cidrs, used).placed;
    var n := NextFree(cidrs[0], used).value;
    if k == 0 {
      assert used + placed[..0] == used;
    } else {
      PlacedAreFree(cidrs[1..], used + [n], k - 1);
      assert used + [n] + Place(cidrs[1..], used + [n]).placed[..k - 1] == used + placed[..k];
    }
  }

  /** The placement after its first `i` fields. */
  lemma {:induction false} PlaceFrom(cidrs: seq<IPNet>, used: seq<IPNet>, i: nat)
    requires i <= |Place(cidrs, used).placed|
    ensures var p := Place(cidrs, used);
      Place(cidrs[i..], used + p.placed[..i]) == Placement(p.placed[i..], p.complete)
  {
    var p := Place(cidrs, used);
    if i == 0 {
      assert used + p.placed[..0] == used && cidrs[0..] == cidrs && p.placed[0..] == p.placed;
    } else {
      var n := p.placed[0];
      PlaceFrom(cidrs[1..], used + [n], i - 1);
      var rest := Place(cidrs[1..], used + [n]);
      assert used + [n] + rest.placed[..i - 1] == used + p.placed[..i];
      assert cidrs[1..][i - 1..] == cidrs[i..] && rest.placed[i - 1..] == p.placed[i..];
    }
  }

  /** Each field gets what the search finds from its base, and the first field
      for which it finds nothing ends the placement. */
  lemma PlacedIsFound(cidrs: seq<IPNet>, used: seq<IPNet>, k: nat)
    requires k <= |Place(cidrs, used).placed| && k < |cidrs|
    ensures var placed := Place(cidrs, used).placed;
      NextFree(cidrs[k], used + placed[..k]) == if k < |placed| then Some(placed[k]) else None
  {
    PlaceFrom(cidrs, used, k);
    assert cidrs[k..][0] == cidrs[k];
  }

  /** Filling field `i` takes the placement from `i` to `i + 1` fields. */
  lemma PlaceNext(cidrs: seq<IPNet>, used: seq<IPNet>, i: nat)
    requires i < |cidrs| && i <= |Place(cidrs, used).placed|
    ensures var p := Place(cidrs, used);
      var next := NextFree(cidrs[i], used + p.placed[..i]);
      && (next.None? ==> !p.complete && p.placed[..i] == p.placed)
      && (next.Some? ==>
          && i < |p.placed|
          && used + p.placed[..i] + [next.value] == used + p.placed[..i + 1]
          && (p.placed[..i] + cidrs[i..])[i := next.value] == p.placed[..i + 1] + cidrs[i + 1..])
  {
    var p := Place(cidrs, used);
    PlaceFrom(cidrs, used, i);
    assert cidrs[i..][0] == cidrs[i];
    if i < |p.placed| {
      assert p.placed[i..][0] == p.placed[i];
    }
  }

  // ---------- bridge names ----------

  function BridgeName(prefix: string, index: nat): string {
    prefix + Decimal(index)
  }

  lemma BridgeNameInjective(prefix: string, m: nat, n: nat)
    requires BridgeName(prefix, m) == BridgeName(prefix, n)
    ensures m == n
  {
    assert Decimal(m) == BridgeName(prefix, m)[|prefix|..];
    assert Decimal(n) == BridgeName(prefix, n)[|prefix|..];
    DecimalInjective(m, n);
  }

  /** Used names the search has not passed yet. */
  ghost function Unseen(prefix: string, used: seq<string>, index: nat): set<string> {
    set s | s in used && forall k: nat | k < index :: s != BridgeName(prefix, k)
  }

  lemma UnseenShrinks(prefix: string, used: seq<string>, index: nat)
    requires BridgeName(prefix, index) in used
    ensures |Unseen(prefix, used, index + 1)| + 1 == |Unseen(prefix, used, index)|
  {
    forall k: nat | BridgeName(prefix, k) == BridgeName(prefix, index)
      ensures k == index
    {
      BridgeNameInjective(prefix, k, index);
    }
    assert BridgeName(prefix, index) in Unseen(prefix, used, index);
    assert Unseen(prefix, used, index + 1) == Unseen(prefix, used, index) - {BridgeName(prefix, index)};
  }

  /** The least unused index from `index` on; every index passed is paid for by
      a distinct used name. */
  function NextBridgeIndex(prefix: string, used: seq<string>, index: nat): (r: nat)
    ensures index <= r <= index + |Unseen(prefix, used, index)|
    ensures BridgeName(prefix, r) !in used
    ensures forall k | index <= k < r :: BridgeName(prefix, k) in used
    decreases |Unseen(prefix, used, index)|
  {
    if BridgeName(prefix, index) !in used then index
    else
      UnseenShrinks(prefix, used, index);
      NextBridgeIndex(prefix, used, index + 1)
  }

  function NextBridge(prefix: string, used: seq<string>): string {
    BridgeName(prefix, NextBridgeIndex(prefix, used, 0))
  }

  lemma {:induction false} DistinctAtMostLength(used: seq<string>)
    ensures |set s | s in used| <= |used|
  {
    if used != [] {
      DistinctAtMostLength(used[1..]);
      assert (set s | s in used) == {used[0]} + (set s | s in used[1..]);
    }
  }

  /** The new name carries the least unused index, at most the number of names
      in use. */
  lemma NextBridgeIsLeast(prefix: string, used: seq<string>) returns (r: nat)
    ensures NextBridge(prefix, used) == BridgeName(prefix, r) && NextBridge(prefix, used) !in used
    ensures r <= |used| && forall k: nat :: k < r ==> BridgeName(prefix, k) in used
  {
    r := NextBridgeIndex(prefix, used, 0);
    DistinctAtMostLength(used);
    assert Unseen(prefix, used, 0) == set s | s in used;
  }

  datatype BridgePair = BridgePair(networkIf: string, secondaryIf: string)

  /** A free primary name is kept without being recorded as used; a replaced
      one is recorded before the secondary name is looked at. */
  function ChooseBridges(base: BridgePair, used: seq<string>): BridgePair {
    var primary := if base.networkIf in used then NextBridge("tt", used) else base.networkIf;
    var seen := if base.networkIf in used then used + [primary] else used;
    BridgePair(primary, if base.secondaryIf in seen then NextBridge("stt", seen) else base.secondaryIf)
  }

  /** Neither name is in use, but the two may collide with each other: exactly
      when the base primary is free and the secondary lands on it. */
  lemma ChosenBridges(base: BridgePair, used: seq<string>)
    ensures var c := ChooseBridges(base, used);
      && c.networkIf !in used && c.secondaryIf !in used
      && (c.networkIf == c.secondaryIf <==>
          && base.networkIf !in used
          && base.networkIf == if base.secondaryIf in used then NextBridge("stt", used) else base.secondaryIf)
  {
    var c := ChooseBridges(base, used);
    if base.networkIf in used {
      assert c.networkIf in used + [c.networkIf];
    }
  }

  /** A bridge keeps its base name if that is free; a replaced one is the prefix
      with the least number not in use. The new primary counts as in use for the
      secondary. */
  lemma BridgesKeptOrLeast(base: BridgePair, used: seq<string>) returns (primary: nat, secondary: nat)
    ensures var c := ChooseBridges(base, used);
      && (if base.networkIf !in used then c.networkIf == base.networkIf
          else c.networkIf == "tt" + Decimal(primary) && forall k: nat | k < primary :: "tt" + Decimal(k) in used)
      && (if base.secondaryIf !in used && (base.networkIf !in used || base.secondaryIf != c.networkIf)
          then c.secondaryIf == base.secondaryIf
          else c.secondaryIf == "stt" + Decimal(secondary) && forall k: nat | k < secondary :: "stt" + Decimal(k) in used)
  {
    primary := NextBridgeIndex("tt", used, 0);
    var c := ChooseBridges(base, used);
    var seen := if base.networkIf in used then used + [c.networkIf] else used;
    secondary := NextBridgeIndex("stt", seen, 0);
    forall k: nat | k < primary
      ensures "tt" + Decimal(k) in used
    {
      assert BridgeName("tt", k) in used;
    }
    forall k: nat | k < secondary
      ensures "stt" + Decimal(k) in used
    {
      assert BridgeName("stt", k) in seen;
      assert BridgeName("stt", k)[0] == 's' && (base.networkIf in used ==> c.networkIf[0] == 't');
    }
  }

  /** Two equal base names do collide on the first `Get`. */
  lemma EqualBaseNamesCollide(name: string, used: seq<string>)
    requires name !in used
    ensures ChooseBridges(BridgePair(name, name), used) == BridgePair(name, name)
  {
  }

  predicate PrimaryForm(name: string) {
    "tt" <= name
  }

  predicate SecondaryForm(name: string) {
    "stt" <= name
  }

  lemma ChosenBridgesKeepForm(base: BridgePair, used: seq<string>)
    requires PrimaryForm(base.networkIf) && SecondaryForm(base.secondaryIf)
    ensures var c := ChooseBridges(base, used);
      PrimaryForm(c.networkIf) && SecondaryForm(c.secondaryIf) && c.networkIf != c.secondaryIf
  {
    var c := ChooseBridges(base, used);
    assert c.networkIf[0] == 't' && c.secondaryIf[0] == 's';
  }

  // ---------- one lock-protected step ----------

  /** The fields of one LibvirtNetworkAssets object. */
  datatype Client = Client(asset: Asset, taken: set<Asset>, ips: seq<IPNet>, bridges: seq<string>)

  /** `raised` is the IndexError of a search that left the address space. */
  datatype Step = Step(client: Client, file: seq<Asset>, raised: bool)

  /** `seen` are the addresses and bridges of the host's interfaces and DHCP
      leases. After an error the allocated lists are not cleared and the fields
      already moved stay moved. */
  function GetStep(c: Client, file: seq<Asset>, seenIps: seq<IPNet>, seenBridges: seq<string>): Step {
    var ips := c.ips + CidrsOf(file) + seenIps;
    var bridges := c.bridges + BridgesOf(file) + seenBridges;
    var p := Place(c.asset.cidrs, ips);
    if !p.complete then
      var cidrs := p.placed + c.asset.cidrs[|p.placed|..];
      Step(c.(asset := c.asset.(cidrs := cidrs), ips := ips + p.placed, bridges := bridges), file, true)
    else
      var pair := ChooseBridges(BridgePair(c.asset.networkIf, c.asset.secondaryIf), bridges);
      var a := Asset(p.placed, pair.networkIf, pair.secondaryIf);
      Step(Client(a, c.taken + {a}, [], []), file + [a], false)
  }

  /** The address `u`, or the address of the network `u`, lies in one of the
      asset's networks, which is no smaller. */
  ghost predicate Hits(a: Asset, u: IPNet) {
    exists n | n in a.cidrs :: n.v6 == u.v6 && n.prefix <= u.prefix && HasAddress(n, u.value)
  }

  /** What a caller of `Get` is promised of the asset: no address or network of
      the host, of a lease or of an asset in the file lies in its networks, and
      its bridges are not among theirs. */
  ghost predicate Avoids(a: Asset, file: seq<Asset>, seenIps: seq<IPNet>, seenBridges: seq<string>) {
    && (forall u | u in seenIps :: !Hits(a, u))
    && (forall x | x in file :: forall u | u in x.cidrs :: !Hits(a, u))
    && a.networkIf !in seenBridges && a.secondaryIf !in seenBridges
    && (forall x | x in file ::
        a.networkIf !in {x.networkIf, x.secondaryIf} && a.secondaryIf !in {x.networkIf, x.secondaryIf})
  }

  lemma PlacedMissesUsed(cidrs: seq<IPNet>, used: seq<IPNet>, k: nat, u: IPNet)
    requires k < |Place(cidrs, used).placed| && u in used
    ensures var n := Place(cidrs, used).placed[k];
      !(n.v6 == u.v6 && n.prefix <= u.prefix && HasAddress(n, u.value))
  {
    var placed := Place(cidrs, used).placed;
    PlacedAreFree(cidrs, used, k);
    assert u in used + placed[..k];
    AllocatedIff(placed[k], used + placed[..k]);
  }

  lemma NoHit(a: Asset, cidrs: seq<IPNet>, used: seq<IPNet>, u: IPNet)
    requires a.cidrs == Place(cidrs, used).placed && u in used
    ensures !Hits(a, u)
  {
    forall n | n in a.cidrs
      ensures !(n.v6 == u.v6 && n.prefix <= u.prefix && HasAddress(n, u.value))
    {
      var k :| 0 <= k < |a.cidrs| && a.cidrs[k] == n;
      PlacedMissesUsed(cidrs, used, k, u);
    }
  }

  /** The asset a successful `Get` returns. */
  lemma GetAvoids(c: Client, file: seq<Asset>, seenIps: seq<IPNet>, seenBridges: seq<string>)
    requires !GetStep(c, file, seenIps, seenBridges).raised
    ensures Avoids(GetStep(c, file, seenIps, seenBridges).client.asset, file, seenIps, seenBridges)
  {
    var ips := c.ips + CidrsOf(file) + seenIps;
    var bridges := c.bridges + BridgesOf(file) + seenBridges;
    var a := GetStep(c, file, seenIps, seenBridges).client.asset;
    forall u | u in ips
      ensures !Hits(a, u)
    {
      NoHit(a, c.asset.cidrs, ips, u);
    }
    ChosenBridges(BridgePair(c.asset.networkIf, c.asset.secondaryIf), bridges);
    forall x | x in file
      ensures forall u | u in x.cidrs :: u in CidrsOf(file)
      ensures x.networkIf in BridgesOf(file) && x.secondaryIf in BridgesOf(file)
    {
      var i :| 0 <= i < |file| && file[i] == x;
      AssetFieldsListed(file, i);
    }
  }

  /** A field keeps its base network when neither an address in use nor a field
      before it lies in that, and then only. */
  lemma FreeBaseIsKept(c: Client, file: seq<Asset>, seenIps: seq<IPNet>, seenBridges: seq<string>, k: nat)
    requires !GetStep(c, file, seenIps, seenBridges).raised && k < IP_NETWORK_FIELDS
    ensures var a := GetStep(c, file, seenIps, seenBridges).client.asset;
      var n := c.asset.cidrs[k];
      && SameKind(a.cidrs[k], n)
      && (a.cidrs[k] == n <==> forall u | u in c.ips + CidrsOf(file) + seenIps + a.cidrs[..k] ::
          !(u.v6 == n.v6 && n.prefix <= u.prefix && HasAddress(n, u.value)))
  {
    var ips := c.ips + CidrsOf(file) + seenIps;
    var a := GetStep(c, file, seenIps, seenBridges).client.asset;
    PlacedAreFree(c.asset.cidrs, ips, k);
    PlacedIsFound(c.asset.cidrs, ips, k);
    AllocatedIff(c.asset.cidrs[k], ips + a.cidrs[..k]);
  }

  /** What else one `Get` does: it raises exactly when some field finds no free
      network, the file grows by the returned asset only, which counts as taken,
      and nothing seen is remembered; after an error everything seen is. */
  lemma GetEffects(c: Client, file: seq<Asset>, seenIps: seq<IPNet>, seenBridges: seq<string>)
    ensures var s := GetStep(c, file, seenIps, seenBridges);
      var ips := c.ips + CidrsOf(file) + seenIps;
      if s.raised then
        && s.file == file && s.client.taken == c.taken
        && (exists k | 0 <= k < IP_NETWORK_FIELDS ::
            && s.client.ips == ips + s.client.asset.cidrs[..k]
            && NextFree(c.asset.cidrs[k], s.client.ips).None?
            && s.client.asset.cidrs[k..] == c.asset.cidrs[k..])
        && s.client.asset.networkIf == c.asset.networkIf && s.client.asset.secondaryIf == c.asset.secondaryIf
        && s.client.bridges == c.bridges + BridgesOf(file) + seenBridges
      else
        && s.file == file + [s.client.asset] && s.client.taken == c.taken + {s.client.asset}
        && s.client.ips == [] && s.client.bridges == []
        && forall k | 0 <= k < IP_NETWORK_FIELDS ::
          NextFree(c.asset.cidrs[k], ips + s.client.asset.cidrs[..k]) == Some(s.client.asset.cidrs[k])
  {
    var s := GetStep(c, file, seenIps, seenBridges);
    var ips := c.ips + CidrsOf(file) + seenIps;
    var placed := Place(c.asset.cidrs, ips).placed;
    if s.raised {
      PlacedIsFound(c.asset.cidrs, ips, |placed|);
      assert s.client.asset.cidrs[..|placed|] == placed;
      assert placed[..|placed|] == placed;
    } else {
      forall k | 0 <= k < IP_NETWORK_FIELDS
        ensures NextFree(c.asset.cidrs[k], ips + s.client.asset.cidrs[..k]) == Some(s.client.asset.cidrs[k])
      {
        PlacedIsFound(c.asset.cidrs, ips, k);
      }
    }
  }

  function Keep(assets: seq<Asset>, taken: set<Asset>): seq<Asset> {
    if assets == [] then []
    else if assets[0] in taken then Keep(assets[1..], taken)
    else [assets[0]] + Keep(assets[1..], taken)
  }

  function ReleaseStep(c: Client, file: seq<Asset>): Step {
    Step(c.(taken := {}), Keep(file, c.taken), false)
  }

  // ---------- the objects ----------

  /** The JSON file; a missing file reads as the empty list. */
  class AssetsFile {
    var assets: seq<Asset>

    constructor (assets: seq<Asset>)
      ensures this.assets == assets
    {
      this.assets := assets;
    }
  }

  class LibvirtNetworkAssets {
    var asset: Asset
    var takenAssets: set<Asset>
    var allocatedIps: seq<IPNet>
    var allocatedBridges: seq<string>

    function View(): Client
      reads this
    {
      Client(asset, takenAssets, allocatedIps, allocatedBridges)
    }

    constructor (baseAsset: Asset)
      ensures View() == Client(baseAsset, {}, [], [])
    {
      asset, takenAssets, allocatedIps, allocatedBridges := baseAsset, {}, [], [];
    }

    method Get(file: AssetsFile, seenIps: seq<IPNet>, seenBridges: seq<string>) returns (r: Option<Asset>)
      modifies this, file
      ensures var s := GetStep(old(View()), old(file.assets), seenIps, seenBridges);
        && View() == s.client && file.assets == s.file
        && r == if s.raised then None else Some(s.client.asset)
      ensures r.Some? ==> Avoids(r.value, old(file.assets), seenIps, seenBridges)
    {
      ghost var before, inUse := View(), file.assets;
      FillFromAssetsFile(file.assets);
      allocatedIps := allocatedIps + seenIps;
      allocatedBridges := allocatedBridges + seenBridges;
      ghost var p := Place(asset.cidrs, allocatedIps);
      var ok := OverrideIpNetworks();
      if !ok {
        return None;
      }
      GetAvoids(before, inUse, seenIps, seenBridges);
      assert asset.cidrs == p.placed;
      OverrideNetworkBridges();
      takenAssets := takenAssets + {asset};
      file.assets := file.assets + [asset];
      allocatedBridges, allocatedIps := [], [];
      return Some(asset);
    }

    method FillFromAssetsFile(inUse: seq<Asset>)
      modifies this`allocatedIps, this`allocatedBridges
      ensures allocatedIps == old(allocatedIps) + CidrsOf(inUse)
      ensures allocatedBridges == old(allocatedBridges) + BridgesOf(inUse)
    {
      for i := 0 to |inUse|
        invariant allocatedIps == old(allocatedIps) + CidrsOf(inUse[..i])
        invariant allocatedBridges == old(allocatedBridges) + BridgesOf(inUse[..i])
      {
        FieldsOfAppend(inUse[..i], inUse[i]);
        assert inUse[..i] + [inUse[i]] == inUse[..i + 1];
        allocatedIps := allocatedIps + inUse[i].cidrs;
        allocatedBridges := allocatedBridges + [inUse[i].networkIf, inUse[i].secondaryIf];
      }
      assert inUse[..|inUse|] == inUse;
    }

    /** Fills the fields in order; each settled network joins the used ones. */
    method OverrideIpNetworks() returns (ok: bool)
      modifies this`asset, this`allocatedIps
      ensures var p := Place(old(asset.cidrs), old(allocatedIps));
        && ok == p.complete
        && allocatedIps == old(allocatedIps) + p.placed
        && asset == old(asset).(cidrs := p.placed + old(asset.cidrs)[|p.placed|..])
    {
      ghost var base := asset.cidrs;
      ghost var p := Place(base, allocatedIps);
      for i := 0 to IP_NETWORK_FIELDS
        invariant i <= |p.placed| && asset == old(asset).(cidrs := p.placed[..i] + base[i..])
        invariant allocatedIps == old(allocatedIps) + p.placed[..i]
      {
        PlaceNext(base, old(allocatedIps), i);
        ok := OverrideIpNetwork(i);
        if !ok {
          return false;
        }
      }
      return true;
    }

    method OverrideIpNetwork(i: nat) returns (ok: bool)
      requires i < IP_NETWORK_FIELDS
      modifies this`asset, this`allocatedIps
      ensures var next := NextFree(old(asset).cidrs[i], old(allocatedIps));
        && ok == next.Some?
        && allocatedIps == old(allocatedIps) + (if ok then [next.value] else [])
        && asset == if ok then old(asset).(cidrs := old(asset).cidrs[i := next.value]) else old(asset)
    {
      var net := new IPNetwork(asset.cidrs[i]);
      ok := SetNextAvailableIpNetwork(net, allocatedIps);
      if ok {
        allocatedIps := allocatedIps + [net.Snapshot()];
        asset := asset.(cidrs := asset.cidrs[i := net.Snapshot()]);
      }
    }

    method OverrideNetworkBridges()
      modifies this`asset, this`allocatedBridges
      ensures var c := ChooseBridges(BridgePair(old(asset).networkIf, old(asset).secondaryIf), old(allocatedBridges));
        && asset == old(asset).(networkIf := c.networkIf, secondaryIf := c.secondaryIf)
        && allocatedBridges == old(allocatedBridges) +
            (if old(asset).networkIf in old(allocatedBridges) then [c.networkIf] else [])
    {
      if asset.networkIf in allocatedBridges {
        var name := GetNextAvailableNetBridge("tt");
        asset := asset.(networkIf := name);
        allocatedBridges := allocatedBridges + [name];
      }
      if asset.secondaryIf in allocatedBridges {
        var name := GetNextAvailableNetBridge("stt");
        asset := asset.(secondaryIf := name);
      }
    }

    method GetNextAvailableNetBridge(prefix: string) returns (name: string)
      ensures name == NextBridge(prefix, allocatedBridges)
    {
      var index := 0;
      while BridgeName(prefix, index) in allocatedBridges
        invariant NextBridgeIndex(prefix, allocatedBridges, index) == NextBridgeIndex(prefix, allocatedBridges, 0)
        decreases |Unseen(prefix, allocatedBridges, index)|
      {
        UnseenShrinks(prefix, allocatedBridges, index);
        index := index + 1;
      }
      return BridgeName(prefix, index);
    }

    method ReleaseAll(file: AssetsFile)
      modifies this`takenAssets, file
      ensures var s := ReleaseStep(old(View()), old(file.assets));
        View() == s.client && file.assets == s.file
    {
      file.assets := RemoveTaken(file.assets, takenAssets);
      takenAssets := {};
    }
  }

  // ---------- removal by index from a shrinking list ----------

  ghost function TakenIndexes(assets: seq<Asset>, taken: set<Asset>, upto: nat): seq<nat>
    requires upto <= |assets|
  {
    if upto == 0 then []
    else TakenIndexes(assets, taken, upto - 1) + if assets[upto - 1] in taken then [upto - 1] else []
  }

  lemma {:induction false} KeepAll(assets: seq<Asset>, taken: set<Asset>)
    requires forall a | a in assets :: a !in taken
    ensures Keep(assets, taken) == assets
  {
    if assets != [] { KeepAll(assets[1..], taken); }
  }

  lemma {:induction false} KeepConcat(xs: seq<Asset>, ys: seq<Asset>, taken: set<Asset>)
    ensures Keep(xs + ys, taken) == Keep(xs, taken) + Keep(ys, taken)
  {
    if xs == [] {
      assert xs + ys == ys;
    } else {
      KeepConcat(xs[1..], ys, taken);
      assert (xs + ys)[0] == xs[0] && (xs + ys)[1..] == xs[1..] + ys;
      ConcatAssoc([xs[0]], Keep(xs[1..], taken), Keep(ys, taken));
    }
  }

  /** The last recorded index is the last taken position below `upto`. */
  lemma {:induction false} LastTakenIndex(assets: seq<Asset>, taken: set<Asset>, upto: nat)
    requires upto <= |assets|
    ensures var ix := TakenIndexes(assets, taken, upto);
      && (ix == [] ==> forall k | 0 <= k < upto :: assets[k] !in taken)
      && (ix != [] ==>
          var last := ix[|ix| - 1];
          && last < upto && assets[last] in taken
          && ix[..|ix| - 1] == TakenIndexes(assets, taken, last)
          && forall k | last < k < upto :: assets[k] !in taken)
  {
    if upto > 0 && assets[upto - 1] !in taken {
      LastTakenIndex(assets, taken, upto - 1);
    }
  }

  lemma PopAt(xs: seq<Asset>, a: Asset, ys: seq<Asset>)
    ensures var list := xs + [a] + ys;
      list[..|xs|] + list[|xs| + 1..] == xs + ys
  {
  }

  lemma PopTaken(assets: seq<Asset>, taken: set<Asset>, last: nat, upto: nat)
    requires last < upto <= |assets| && assets[last] in taken
    requires forall k | last < k < upto :: assets[k] !in taken
    ensures var list := assets[..upto] + Keep(assets[upto..], taken);
      list[..last] + list[last + 1..] == assets[..last] + Keep(assets[last..], taken)
  {
    var gap := assets[last + 1..upto];
    var rest := assets[upto..];
    CutAround(assets, last, upto);
    KeepConcat(gap, rest, taken);
    KeepAll(gap, taken);
    assert ([assets[last]] + (gap + rest))[1..] == gap + rest;
    ConcatAssoc(assets[..last] + [assets[last]], gap, Keep(rest, taken));
    PopAt(assets[..last], assets[last], gap + Keep(rest, taken));
  }

  lemma CutAround(assets: seq<Asset>, last: nat, upto: nat)
    requires last < upto <= |assets|
    ensures assets[..upto] == assets[..last] + [assets[last]] + assets[last + 1..upto]
    ensures assets[last..] == [assets[last]] + (assets[last + 1..upto] + assets[upto..])
  {
  }

  /** Collects the indexes of taken assets, then pops them from the back. */
  method RemoveTaken(assets: seq<Asset>, taken: set<Asset>) returns (list: seq<Asset>)
    ensures list == Keep(assets, taken)
  {
    var indexesToPop: seq<nat> := [];
    for i := 0 to |assets|
      invariant indexesToPop == TakenIndexes(assets, taken, i)
    {
      if assets[i] in taken {
        indexesToPop := indexesToPop + [i];
      }
    }
    list := assets;
    ghost var upto := |assets|;
    assert Keep(assets[upto..], taken) == [];
    while indexesToPop != []
      invariant upto <= |assets| && indexesToPop == TakenIndexes(assets, taken, upto)
      invariant list == assets[..upto] + Keep(assets[upto..], taken)
    {
      LastTakenIndex(assets, taken, upto);
      var last := indexesToPop[|indexesToPop| - 1];
      PopTaken(assets, taken, last, upto);
      list := list[..last] + list[last + 1..];
      indexesToPop := indexesToPop[..|indexesToPop| - 1];
      upto := last;
    }
    LastTakenIndex(assets, taken, upto);
    KeepAll(assets[..upto], taken);
    KeepConcat(assets[..upto], assets[upto..], taken);
    assert assets == assets[..upto] + assets[upto..];
  }
}
