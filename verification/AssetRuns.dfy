/** Runs of any number of LibvirtNetworkAssets objects over one assets file, as
    interleavings of their lock-protected steps. */
module AssetRuns {
  import opened Sequences
  import opened Cidr
  import opened NetworkAssets

  datatype State = State(file: seq<Asset>, clients: seq<Client>)

  datatype Event =
    | Get(id: nat, seenIps: seq<IPNet>, seenBridges: seq<string>)
    | ReleaseAll(id: nat)

  function ClientStep(c: Client, file: seq<Asset>, e: Event): Step {
    match e
    case Get(_, seenIps, seenBridges) => GetStep(c, file, seenIps, seenBridges)
    case ReleaseAll(_) => ReleaseStep(c, file)
  }

  /** Events of unknown clients do nothing. */
  function Apply(s: State, e: Event): State {
    if e.id >= |s.clients| then s
    else
      var step := ClientStep(s.clients[e.id], s.file, e);
      State(step.file, s.clients[e.id := step.client])
  }

  function Run(s: State, es: seq<Event>): State
    decreases |es|
  {
    if es == [] then s else Run(Apply(s, es[0]), es[1..])
  }

  // ---------- what every interleaving keeps ----------

  ghost predicate PairwiseDisjoint(ns: seq<IPNet>) {
    forall i, j | 0 <= i < j < |ns| :: Disjoint(ns[i], ns[j])
  }

  predicate UniformNet(n: IPNet, p4: nat, p6: nat) {
    n.prefix == if n.v6 then p6 else p4
  }

  /** One prefix length per address family, names of the tt / stt form. */
  predicate WellShaped(a: Asset, p4: nat, p6: nat) {
    && (forall n | n in a.cidrs :: UniformNet(n, p4, p6))
    && PrimaryForm(a.networkIf) && SecondaryForm(a.secondaryIf)
  }

  ghost predicate Sound(s: State, p4: nat, p6: nat) {
    && (forall a | a in s.file :: WellShaped(a, p4, p6))
    && (forall c | c in s.clients :: WellShaped(c.asset, p4, p6))
    && PairwiseDisjoint(CidrsOf(s.file))
    && Distinct(BridgesOf(s.file))
  }

  lemma {:induction false} CidrsUniform(file: seq<Asset>, p4: nat, p6: nat)
    requires forall a | a in file :: WellShaped(a, p4, p6)
    ensures forall n | n in CidrsOf(file) :: UniformNet(n, p4, p6)
  {
    if file != [] {
      CidrsUniform(file[1..], p4, p6);
      assert file[0] in file;
    }
  }

  lemma PairwiseDisjointConcat(xs: seq<IPNet>, ys: seq<IPNet>)
    ensures PairwiseDisjoint(xs + ys) <==>
      PairwiseDisjoint(xs) && PairwiseDisjoint(ys) && forall x, y | x in xs && y in ys :: Disjoint(x, y)
  {
    var s := xs + ys;
    if PairwiseDisjoint(s) {
      forall i, j | 0 <= i < j < |xs| ensures Disjoint(xs[i], xs[j]) { assert s[i] == xs[i] && s[j] == xs[j]; }
      forall i, j | 0 <= i < j < |ys| ensures Disjoint(ys[i], ys[j]) {
        assert s[|xs| + i] == ys[i] && s[|xs| + j] == ys[j];
      }
      forall x, y | x in xs && y in ys ensures Disjoint(x, y) {
        var i :| 0 <= i < |xs| && xs[i] == x;
        var j :| 0 <= j < |ys| && ys[j] == y;
        assert s[i] == x && s[|xs| + j] == y;
      }
    }
  }

  /** Networks placed after `used` are disjoint from the uniform networks among
      them and from each other. */
  lemma PlacedAreDisjoint(cidrs: seq<IPNet>, used: seq<IPNet>, file: seq<IPNet>, p4: nat, p6: nat)
    requires forall n | n in cidrs :: UniformNet(n, p4, p6)
    requires forall n | n in file :: UniformNet(n, p4, p6) && n in used
    requires PairwiseDisjoint(file)
    ensures PairwiseDisjoint(file + Place(cidrs, used).placed)
    ensures forall n | n in Place(cidrs, used).placed :: UniformNet(n, p4, p6)
  {
    var placed := Place(cidrs, used).placed;
    forall k | 0 <= k < |placed|
      ensures UniformNet(placed[k], p4, p6)
    {
      PlacedAreFree(cidrs, used, k);
      assert cidrs[k] in cidrs;
    }
    forall k, u | 0 <= k < |placed| && (u in file || u in placed[..k])
      ensures Disjoint(u, placed[k])
    {
      PlacedAreFree(cidrs, used, k);
      assert u in used + placed[..k];
      DisjointIff(placed[k], u);
    }
    forall i, j | 0 <= i < j < |placed|
      ensures Disjoint(placed[i], placed[j])
    {
      assert placed[i] in placed[..j];
    }
    PairwiseDisjointConcat(file, placed);
  }

  lemma GetKeepsSound(s: State, e: Event, p4: nat, p6: nat)
    requires Sound(s, p4, p6) && e.Get? && e.id < |s.clients|
    ensures Sound(Apply(s, e), p4, p6)
  {
    var c := s.clients[e.id];
    var ips := c.ips + CidrsOf(s.file) + e.seenIps;
    var bridges := c.bridges + BridgesOf(s.file) + e.seenBridges;
    CidrsUniform(s.file, p4, p6);
    PlacedAreDisjoint(c.asset.cidrs, ips, CidrsOf(s.file), p4, p6);
    var step := ClientStep(c, s.file, e);
    if step.raised {
      assert WellShaped(step.client.asset, p4, p6);
    } else {
      var base := BridgePair(c.asset.networkIf, c.asset.secondaryIf);
      ChosenBridges(base, bridges);
      ChosenBridgesKeepForm(base, bridges);
      var a := step.client.asset;
      FieldsOfAppend(s.file, a);
      DistinctConcat(BridgesOf(s.file), [a.networkIf, a.secondaryIf]);
    }
  }

  lemma {:induction false} KeepFields(file: seq<Asset>, taken: set<Asset>)
    ensures forall a | a in Keep(file, taken) :: a in file && a !in taken
    ensures forall n | n in CidrsOf(Keep(file, taken)) :: n in CidrsOf(file)
    ensures forall b | b in BridgesOf(Keep(file, taken)) :: b in BridgesOf(file)
    ensures PairwiseDisjoint(CidrsOf(file)) ==> PairwiseDisjoint(CidrsOf(Keep(file, taken)))
    ensures Distinct(BridgesOf(file)) ==> Distinct(BridgesOf(Keep(file, taken)))
  {
    if file != [] {
      var kept := Keep(file[1..], taken);
      var names := [file[0].networkIf, file[0].secondaryIf];
      KeepFields(file[1..], taken);
      assert Keep(file, taken) == if file[0] in taken then kept else [file[0]] + kept;
      assert ([file[0]] + kept)[1..] == kept;
      PairwiseDisjointConcat(file[0].cidrs, CidrsOf(file[1..]));
      PairwiseDisjointConcat(file[0].cidrs, CidrsOf(kept));
      DistinctConcat(names, BridgesOf(file[1..]));
      DistinctConcat(names, BridgesOf(kept));
    }
  }

  lemma StepKeepsSound(s: State, e: Event, p4: nat, p6: nat)
    requires Sound(s, p4, p6)
    ensures Sound(Apply(s, e), p4, p6)
  {
    if e.id < |s.clients| {
      if e.Get? {
        GetKeepsSound(s, e, p4, p6);
      } else {
        KeepFields(s.file, s.clients[e.id].taken);
        assert WellShaped(s.clients[e.id].asset, p4, p6);
      }
    }
  }

  /** Whatever the interleaving, all networks of all assets in the file are
      pairwise disjoint and all bridge names differ. Clients may start with any
      base asset of one prefix length per family and tt / stt names, any taken
      set and any left-over lists. */
  lemma {:induction false} EveryRunKeepsAssetsApart(s: State, es: seq<Event>, p4: nat, p6: nat)
    requires Sound(s, p4, p6)
    ensures Sound(Run(s, es), p4, p6)
    ensures PairwiseDisjoint(CidrsOf(Run(s, es).file)) && Distinct(BridgesOf(Run(s, es).file))
    decreases |es|
  {
    if es != [] {
      StepKeepsSound(s, es[0], p4, p6);
      EveryRunKeepsAssetsApart(Apply(s, es[0]), es[1..], p4, p6);
    }
  }

  /** The start of a test session: an empty pool and one client per base asset. */
  function FreshPool(bases: seq<Asset>): State {
    State([], FreshClients(bases))
  }

  function FreshClients(bases: seq<Asset>): seq<Client> {
    seq(|bases|, i requires 0 <= i < |bases| => Client(bases[i], {}, [], []))
  }

  lemma FreshPoolIsSound(bases: seq<Asset>, p4: nat, p6: nat)
    requires forall a | a in bases :: WellShaped(a, p4, p6)
    ensures Sound(FreshPool(bases), p4, p6)
  {
    assert forall i | 0 <= i < |bases| :: bases[i] in bases;
  }

  // ---------- release by printed value is release by owner ----------

  datatype Entry = Entry(owner: int, asset: Asset)

  /** The file with the owner of each asset written beside it. */
  datatype Ledger = Ledger(entries: seq<Entry>, clients: seq<Client>)

  function AssetsIn(entries: seq<Entry>): seq<Asset> {
    if entries == [] then [] else [entries[0].asset] + AssetsIn(entries[1..])
  }

  function NotOwnedBy(entries: seq<Entry>, ids: set<int>): seq<Entry> {
    if entries == [] then []
    else if entries[0].owner in ids then NotOwnedBy(entries[1..], ids)
    else [entries[0]] + NotOwnedBy(entries[1..], ids)
  }

  function Forget(l: Ledger): State {
    State(AssetsIn(l.entries), l.clients)
  }

  function FreshLedger(bases: seq<Asset>): Ledger {
    Ledger([], FreshClients(bases))
  }

  /** As `Apply`, except that a release removes the entries its client owns. */
  function ApplyOwned(l: Ledger, e: Event): Ledger {
    if e.id >= |l.clients| then l
    else
      var step := ClientStep(l.clients[e.id], AssetsIn(l.entries), e);
      var entries :=
        if e.ReleaseAll? then NotOwnedBy(l.entries, {e.id})
        else if step.raised then l.entries
        else l.entries + [Entry(e.id, step.client.asset)];
      Ledger(entries, l.clients[e.id := step.client])
  }

  function RunOwned(l: Ledger, es: seq<Event>): Ledger
    decreases |es|
  {
    if es == [] then l else RunOwned(ApplyOwned(l, es[0]), es[1..])
  }

  ghost predicate Owns(entries: seq<Entry>, id: int, taken: set<Asset>) {
    && (forall e | e in entries && e.owner == id :: e.asset in taken)
    && (forall a | a in taken :: Entry(id, a) in entries)
  }

  ghost predicate DistinctAssets(entries: seq<Entry>) {
    forall i, j | 0 <= i < j < |entries| :: entries[i].asset != entries[j].asset
  }

  /** Assets in the file differ, and each client remembers exactly its own. */
  ghost predicate Tracked(l: Ledger) {
    && DistinctAssets(l.entries)
    && (forall id | 0 <= id < |l.clients| :: Owns(l.entries, id, l.clients[id].taken))
  }

  /** The start of a test session, with owners: nothing in the file and nothing
      taken. */
  lemma FreshLedgerIsTracked(bases: seq<Asset>)
    ensures Tracked(FreshLedger(bases))
    ensures Forget(FreshLedger(bases)) == FreshPool(bases)
  {
  }

  lemma {:induction false} AssetsInAt(entries: seq<Entry>)
    ensures |AssetsIn(entries)| == |entries|
    ensures forall i | 0 <= i < |entries| :: AssetsIn(entries)[i] == entries[i].asset
  {
    if entries != [] { AssetsInAt(entries[1..]); }
  }

  lemma AssetsInAppend(entries: seq<Entry>, e: Entry)
    ensures AssetsIn(entries + [e]) == AssetsIn(entries) + [e.asset]
  {
    AssetsInAt(entries);
    AssetsInAt(entries + [e]);
  }

  /** A successful `Get` never repeats an asset: the network it settles on for
      its first field contains itself, so it was not in the file. */
  lemma GetIsNew(c: Client, file: seq<Asset>, seenIps: seq<IPNet>, seenBridges: seq<string>)
    requires !GetStep(c, file, seenIps, seenBridges).raised
    ensures GetStep(c, file, seenIps, seenBridges).client.asset !in file
  {
    var ips := c.ips + CidrsOf(file) + seenIps;
    var a := GetStep(c, file, seenIps, seenBridges).client.asset;
    PlacedAreFree(c.asset.cidrs, ips, 0);
    assert Contains(a.cidrs[0], a.cidrs[0]);
    if a in file {
      var i :| 0 <= i < |file| && file[i] == a;
      AssetFieldsListed(file, i);
    }
  }

  lemma {:induction false} KeepByOwner(entries: seq<Entry>, taken: set<Asset>, id: int)
    requires forall e | e in entries :: e.asset in taken <==> e.owner == id
    ensures Keep(AssetsIn(entries), taken) == AssetsIn(NotOwnedBy(entries, {id}))
  {
    if entries != [] {
      KeepByOwner(entries[1..], taken, id);
      var rest := NotOwnedBy(entries[1..], {id});
      assert entries[0] in entries;
      assert ([entries[0]] + rest)[1..] == rest;
      assert AssetsIn(entries)[1..] == AssetsIn(entries[1..]);
    }
  }

  lemma {:induction false} NotOwnedByIs(entries: seq<Entry>, ids: set<int>)
    ensures forall e :: e in NotOwnedBy(entries, ids) <==> e in entries && e.owner !in ids
  {
    if entries != [] {
      NotOwnedByIs(entries[1..], ids);
      assert forall e :: e in entries <==> e == entries[0] || e in entries[1..];
    }
  }

  lemma {:induction false} NotOwnedByDistinct(entries: seq<Entry>, ids: set<int>)
    requires DistinctAssets(entries)
    ensures DistinctAssets(NotOwnedBy(entries, ids))
  {
    if entries != [] {
      NotOwnedByDistinct(entries[1..], ids);
      NotOwnedByIs(entries[1..], ids);
      var rest := NotOwnedBy(entries[1..], ids);
      forall j | 0 <= j < |rest|
        ensures rest[j].asset != entries[0].asset
      {
        assert rest[j] in entries[1..];
      }
    }
  }

  lemma ReleaseByOwner(l: Ledger, id: nat)
    requires Tracked(l) && id < |l.clients|
    ensures Keep(AssetsIn(l.entries), l.clients[id].taken) == AssetsIn(NotOwnedBy(l.entries, {id}))
  {
    var taken := l.clients[id].taken;
    assert Owns(l.entries, id, taken);
    forall e | e in l.entries
      ensures e.asset in taken <==> e.owner == id
    {
      if e.asset in taken {
        assert Entry(id, e.asset) in l.entries;
      }
    }
    KeepByOwner(l.entries, taken, id);
  }

  lemma OwnedStep(l: Ledger, e: Event)
    requires Tracked(l)
    ensures Tracked(ApplyOwned(l, e)) && Forget(ApplyOwned(l, e)) == Apply(Forget(l), e)
  {
    if e.id < |l.clients| {
      if e.ReleaseAll? {
        ReleaseByOwner(l, e.id);
        NotOwnedByIs(l.entries, {e.id});
        NotOwnedByDistinct(l.entries, {e.id});
        var m := ApplyOwned(l, e);
        forall id | 0 <= id < |m.clients|
          ensures Owns(m.entries, id, m.clients[id].taken)
        {
          assert Owns(l.entries, id, l.clients[id].taken);
        }
      } else {
        OwnedGet(l, e);
      }
    }
  }

  lemma OwnedGet(l: Ledger, e: Event)
    requires Tracked(l) && e.Get? && e.id < |l.clients|
    ensures Tracked(ApplyOwned(l, e)) && Forget(ApplyOwned(l, e)) == Apply(Forget(l), e)
  {
    var step := ClientStep(l.clients[e.id], AssetsIn(l.entries), e);
    var m := ApplyOwned(l, e);
    if !step.raised {
      var entry := Entry(e.id, step.client.asset);
      GetIsNew(l.clients[e.id], AssetsIn(l.entries), e.seenIps, e.seenBridges);
      AssetsInAppend(l.entries, entry);
      AssetsInAt(l.entries);
      forall i | 0 <= i < |l.entries|
        ensures l.entries[i].asset != entry.asset
      {
        assert AssetsIn(l.entries)[i] == l.entries[i].asset;
      }
    }
    forall id | 0 <= id < |m.clients|
      ensures Owns(m.entries, id, m.clients[id].taken)
    {
      assert Owns(l.entries, id, l.clients[id].taken);
    }
  }

  /** On every run the file is what removal by owner would leave: `ReleaseAll`
      removes exactly what its client took and keeps the rest in order. */
  lemma {:induction false} ReleaseIsByOwner(l: Ledger, es: seq<Event>)
    requires Tracked(l)
    ensures Tracked(RunOwned(l, es)) && Forget(RunOwned(l, es)) == Run(Forget(l), es)
    decreases |es|
  {
    if es != [] {
      OwnedStep(l, es[0]);
      ReleaseIsByOwner(ApplyOwned(l, es[0]), es[1..]);
    }
  }

  // ---------- get, others' steps, release ----------

  function Releasers(es: seq<Event>): set<int> {
    if es == [] then {}
    else (if es[0].ReleaseAll? then {es[0].id} else {}) + Releasers(es[1..])
  }

  function Getters(es: seq<Event>): set<int> {
    if es == [] then {}
    else (if es[0].Get? then {es[0].id} else {}) + Getters(es[1..])
  }

  predicate OnlyOthers(es: seq<Event>, id: nat) {
    id !in Getters(es) && id !in Releasers(es)
  }

  lemma {:induction false} NotOwnedByConcat(xs: seq<Entry>, ys: seq<Entry>, ids: set<int>)
    ensures NotOwnedBy(xs + ys, ids) == NotOwnedBy(xs, ids) + NotOwnedBy(ys, ids)
  {
    if xs == [] {
      assert xs + ys == ys;
    } else {
      NotOwnedByConcat(xs[1..], ys, ids);
      assert (xs + ys)[0] == xs[0] && (xs + ys)[1..] == xs[1..] + ys;
      ConcatAssoc([xs[0]], NotOwnedBy(xs[1..], ids), NotOwnedBy(ys, ids));
    }
  }

  lemma {:induction false} NotOwnedByTwice(entries: seq<Entry>, ids: set<int>, more: set<int>)
    ensures NotOwnedBy(NotOwnedBy(entries, ids), more) == NotOwnedBy(entries, ids + more)
  {
    if entries != [] {
      NotOwnedByTwice(entries[1..], ids, more);
      var rest := NotOwnedBy(entries[1..], ids);
      assert ([entries[0]] + rest)[1..] == rest;
    }
  }

  lemma {:induction false} NotOwnedByNobody(entries: seq<Entry>, ids: set<int>)
    requires forall e | e in entries :: e.owner !in ids
    ensures NotOwnedBy(entries, ids) == entries
  {
    if entries != [] { NotOwnedByNobody(entries[1..], ids); }
  }

  /** The entries one step leaves. */
  lemma OwnedEntries(l: Ledger, e: Event) returns (mine: seq<Entry>)
    requires e.id < |l.clients|
    ensures |ApplyOwned(l, e).clients| == |l.clients|
    ensures forall x | x in mine :: x.owner == e.id
    ensures ApplyOwned(l, e).entries ==
      if e.Get? then l.entries + mine else NotOwnedBy(l.entries, {e.id}) + mine
    ensures e.ReleaseAll? ==> mine == []
  {
    mine := if e.Get? then ApplyOwned(l, e).entries[|l.entries|..] else [];
  }

  lemma RemainAfterStep(entries: seq<Entry>, mine: seq<Entry>, ids: set<int>, more: set<int>, later: seq<Entry>)
    returns (added: seq<Entry>)
    ensures NotOwnedBy(NotOwnedBy(entries, ids) + mine, more) + later == NotOwnedBy(entries, ids + more) + added
    ensures forall x | x in added :: x in mine || x in later
  {
    NotOwnedByConcat(NotOwnedBy(entries, ids), mine, more);
    NotOwnedByTwice(entries, ids, more);
    NotOwnedByIs(mine, more);
    added := NotOwnedBy(mine, more) + later;
  }

  /** What a run leaves: the old entries whose owners did not release, in order,
      then entries of clients that called `Get` during the run. */
  lemma {:induction false} RunLeaves(l: Ledger, es: seq<Event>) returns (added: seq<Entry>)
    requires forall i | 0 <= i < |es| :: es[i].id < |l.clients|
    ensures RunOwned(l, es).entries == NotOwnedBy(l.entries, Releasers(es)) + added
    ensures forall e | e in added :: e.owner in Getters(es)
    ensures |RunOwned(l, es).clients| == |l.clients|
    decreases |es|
  {
    if es == [] {
      NotOwnedByNobody(l.entries, {});
      added := [];
    } else {
      var mine := OwnedEntries(l, es[0]);
      var later := RunLeaves(ApplyOwned(l, es[0]), es[1..]);
      var ids := if es[0].ReleaseAll? then {es[0].id as int} else {};
      if es[0].Get? {
        NotOwnedByNobody(l.entries, ids);
      }
      added := RemainAfterStep(l.entries, mine, ids, Releasers(es[1..]), later);
    }
  }

  lemma AppendedGone(kept: seq<Entry>, mine: seq<Entry>, id: int)
    requires forall e | e in kept :: e.owner != id
    requires forall e | e in mine :: e.owner == id
    ensures NotOwnedBy(kept + mine, {id}) == kept
  {
    NotOwnedByConcat(kept, mine, {id});
    NotOwnedByNobody(kept, {id});
    NoneLeft(mine, id);
  }

  lemma ReleasedLast(kept: seq<Entry>, mine: seq<Entry>, added: seq<Entry>, id: int)
    requires forall e | e in kept :: e.owner != id
    requires forall e | e in added :: e.owner != id
    requires forall e | e in mine :: e.owner == id
    ensures NotOwnedBy(kept + mine + added, {id}) == kept + added
  {
    AppendedGone(kept, mine, id);
    NotOwnedByConcat(kept + mine, added, {id});
    NotOwnedByNobody(added, {id});
  }

  lemma {:induction false} RunOwnedConcat(l: Ledger, xs: seq<Event>, ys: seq<Event>)
    ensures RunOwned(l, xs + ys) == RunOwned(RunOwned(l, xs), ys)
    decreases |xs|
  {
    if xs == [] {
      assert xs + ys == ys;
    } else {
      assert (xs + ys)[0] == xs[0] && (xs + ys)[1..] == xs[1..] + ys;
      RunOwnedConcat(ApplyOwned(l, xs[0]), xs[1..], ys);
    }
  }

  /** A `Get`, any steps of other clients, then `ReleaseAll`, with the owners
      written down. */
  lemma OwnedGetThenRelease(l: Ledger, get: Event, es: seq<Event>) returns (added: seq<Entry>)
    requires Tracked(l) && get.Get? && get.id < |l.clients|
    requires l.clients[get.id].taken == {}
    requires OnlyOthers(es, get.id) && forall i | 0 <= i < |es| :: es[i].id < |l.clients|
    ensures forall e | e in added :: e.owner in Getters(es)
    ensures var n := RunOwned(ApplyOwned(l, get), es);
      && get.id < |n.clients|
      && NotOwnedBy(n.entries, {get.id}) == NotOwnedBy(l.entries, Releasers(es)) + added
  {
    var mine := OwnedEntries(l, get);
    added := RunLeaves(ApplyOwned(l, get), es);
    NotOwnedByConcat(l.entries, mine, Releasers(es));
    NotOwnedByIs(l.entries, Releasers(es));
    NotOwnedByIs(mine, Releasers(es));
    assert Owns(l.entries, get.id, {});
    ReleasedLast(NotOwnedBy(l.entries, Releasers(es)), NotOwnedBy(mine, Releasers(es)), added, get.id);
  }

  /** A `Get`, any steps of other clients, then `ReleaseAll`: what remains is
      the file as it was, minus what the others released, plus what the others
      took, each entry with the client that took it. Nothing of the client
      itself is left and nothing else is gone. */
  lemma GetThenReleaseRestores(l: Ledger, get: Event, es: seq<Event>) returns (added: seq<Entry>)
    requires Tracked(l) && get.Get? && get.id < |l.clients|
    requires l.clients[get.id].taken == {}
    requires OnlyOthers(es, get.id) && forall i | 0 <= i < |es| :: es[i].id < |l.clients|
    ensures forall e | e in added :: e.owner in Getters(es)
    ensures var end := RunOwned(ApplyOwned(l, get), es + [ReleaseAll(get.id)]);
      && end.entries == NotOwnedBy(l.entries, Releasers(es)) + added
      && Tracked(end)
      && (forall e | e in end.entries :: e.owner != get.id)
      && Forget(end) == Run(Apply(Forget(l), get), es + [ReleaseAll(get.id)])
  {
    added := OwnedGetThenRelease(l, get, es);
    var up := ApplyOwned(l, get);
    var n := RunOwned(up, es);
    OwnedStep(l, get);
    RunOwnedConcat(up, es, [ReleaseAll(get.id)]);
    assert RunOwned(n, [ReleaseAll(get.id)]) == RunOwned(ApplyOwned(n, ReleaseAll(get.id)), []);
    ReleaseIsByOwner(up, es + [ReleaseAll(get.id)]);
    NotOwnedByIs(n.entries, {get.id});
  }

  lemma {:induction false} NoneLeft(entries: seq<Entry>, id: int)
    requires forall e | e in entries :: e.owner == id
    ensures NotOwnedBy(entries, {id}) == []
  {
    if entries != [] { NoneLeft(entries[1..], id); }
  }

  lemma NobodyAdded(added: seq<Entry>, ids: set<int>)
    requires forall e | e in added :: e.owner in ids
    ensures added == [] || ids != {}
  {
    assert added == [] || added[0].owner in ids;
  }

  /** Without other clients in between the file comes back exactly. */
  lemma GetThenReleaseAlone(l: Ledger, get: Event)
    requires Tracked(l) && get.Get? && get.id < |l.clients|
    requires l.clients[get.id].taken == {}
    ensures Run(Forget(l), [get, ReleaseAll(get.id)]).file == Forget(l).file
  {
    var added := GetThenReleaseRestores(l, get, []);
    assert [get, ReleaseAll(get.id)][1..] == [] + [ReleaseAll(get.id)];
    NotOwnedByNobody(l.entries, {});
    NobodyAdded(added, Getters([]));
    assert l.entries + [] == l.entries;
  }
}
