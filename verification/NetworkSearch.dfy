/** The search of the asset allocator for a free network: the netaddr object it
    moves in place, the loop, and the function the loop computes. */
module NetworkSearch {
  import opened Text
  import opened Cidr

  predicate Allocated(n: IPNet, used: seq<IPNet>) {
    exists u | u in used :: Contains(n, u)
  }

  /** The network the search settles on; None when it runs off the end of the
      address space. */
  function NextFree(n: IPNet, used: seq<IPNet>): (r: Option<IPNet>)
    ensures r.Some? ==> SameKind(r.value, n) && !Allocated(r.value, used)
    decreases Pow2(Width(n.v6)) - n.value
  {
    if !Allocated(n, used) then Some(n)
    else match Advance(n)
      case None => None
      case Some(m) => AdvanceMovesBlocks(n); NextFree(m, used)
  }

  // ---------- what the search returns ----------

  /** The k-th network the search looks at. */
  predicate InSpace(n: IPNet, k: nat) {
    k == 0 || First(n) + k * Stride(n) + Size(n) <= Pow2(Width(n.v6))
  }

  function Candidate(n: IPNet, k: nat): IPNet
    requires InSpace(n, k)
  {
    if k == 0 then n else n.(value := First(n) + k * Stride(n))
  }

  /** Allocated objects of the candidates' family that one of them could hit,
      at block `from` or later. */
  function Ahead(n: IPNet, used: seq<IPNet>, from: nat): nat {
    if used == [] then 0
    else (if used[0].v6 == n.v6 && used[0].value / Size(n) >= from then 1 else 0) + Ahead(n, used[1..], from)
  }

  lemma {:induction false} AheadShrinks(n: IPNet, used: seq<IPNet>, b: nat, c: nat)
    requires b < c
    ensures Ahead(n, used, c) <= Ahead(n, used, b) <= |used|
    ensures (exists u | u in used :: u.v6 == n.v6 && u.value / Size(n) == b) ==> Ahead(n, used, c) < Ahead(n, used, b)
  {
    if used != [] {
      AheadShrinks(n, used[1..], b, c);
      assert forall u | u in used :: u == used[0] || u in used[1..];
    }
  }

  lemma {:induction false} AheadSameKind(m: IPNet, n: IPNet, used: seq<IPNet>, b: nat)
    requires SameKind(m, n)
    ensures Ahead(m, used, b) == Ahead(n, used, b)
  {
    if used != [] {
      AheadSameKind(m, n, used[1..], b);
    }
  }

  lemma CandidateShift(n: IPNet, m: IPNet, k: nat)
    requires Advance(n) == Some(m)
    ensures InSpace(m, k) <==> InSpace(n, k + 1)
    ensures InSpace(m, k) ==> Candidate(m, k) == Candidate(n, k + 1)
  {
    AdvanceMovesBlocks(n);
    OneMore(k, Stride(n));
    SameStride(n, m);
  }

  lemma SameStride(n: IPNet, m: IPNet)
    requires SameKind(n, m)
    ensures Stride(m) == Stride(n) && Size(m) == Size(n)
  {
  }

  lemma OneMore(k: nat, s: nat)
    ensures (k + 1) * s == s + k * s >= s
  {
  }

  lemma NoneAfterTheEnd(n: IPNet, k: nat)
    requires Advance(n).None? && k > 0
    ensures !InSpace(n, k)
  {
    ScaleLeq(1, k, Stride(n));
  }

  /** The first `k` candidates exist and are taken. */
  ghost predicate TakenUpTo(n: IPNet, used: seq<IPNet>, k: nat) {
    forall j: nat | j < k :: InSpace(n, j) && Allocated(Candidate(n, j), used)
  }

  ghost predicate NoneFree(n: IPNet, used: seq<IPNet>) {
    forall j: nat | InSpace(n, j) :: Allocated(Candidate(n, j), used)
  }

  lemma ShiftTaken(n: IPNet, m: IPNet, used: seq<IPNet>, k: nat)
    requires Advance(n) == Some(m) && Allocated(n, used)
    requires TakenUpTo(m, used, k)
    ensures TakenUpTo(n, used, k + 1)
  {
    forall j: nat | j < k + 1
      ensures InSpace(n, j) && Allocated(Candidate(n, j), used)
    {
      if j > 0 { CandidateShift(n, m, j - 1); }
    }
  }

  lemma ShiftNoneFree(n: IPNet, m: IPNet, used: seq<IPNet>)
    requires Advance(n) == Some(m) && Allocated(n, used)
    ensures NoneFree(n, used) <==> NoneFree(m, used)
  {
    if NoneFree(m, used) {
      forall j: nat | InSpace(n, j)
        ensures Allocated(Candidate(n, j), used)
      {
        if j > 0 { CandidateShift(n, m, j - 1); }
      }
    }
    if NoneFree(n, used) {
      forall j: nat | InSpace(m, j)
        ensures Allocated(Candidate(m, j), used)
      {
        CandidateShift(n, m, j);
      }
    }
  }

  /** The search returns the first free candidate at or after the base, after
      `k` increments; each of them is paid for by a distinct allocated object
      of the same family. It fails exactly when no candidate is free. */
  lemma {:induction false} SearchOutcome(n: IPNet, used: seq<IPNet>) returns (k: nat)
    ensures InSpace(n, k) && k <= Ahead(n, used, Block(n)) <= |used|
    ensures TakenUpTo(n, used, k)
    ensures NextFree(n, used).Some? ==> NextFree(n, used).value == Candidate(n, k)
    ensures NextFree(n, used).None? <==> NoneFree(n, used)
    decreases Pow2(Width(n.v6)) - n.value
  {
    AheadShrinks(n, used, Block(n), Block(n) + 1);
    if !Allocated(n, used) {
      k := 0;
      assert !Allocated(Candidate(n, 0), used);
    } else if Advance(n).None? {
      k := 0;
      forall j: nat | InSpace(n, j)
        ensures Allocated(Candidate(n, j), used)
      {
        if j > 0 { NoneAfterTheEnd(n, j); }
      }
    } else {
      var m := Advance(n).value;
      AdvanceMovesBlocks(n);
      var i := SearchOutcome(m, used);
      SearchBound(n, m, used);
      CandidateShift(n, m, i);
      ShiftTaken(n, m, used, i);
      ShiftNoneFree(n, m, used);
      k := i + 1;
    }
  }

  lemma SearchBound(n: IPNet, m: IPNet, used: seq<IPNet>)
    requires Allocated(n, used) && Advance(n) == Some(m)
    ensures Ahead(m, used, Block(m)) < Ahead(n, used, Block(n))
  {
    AdvanceMovesBlocks(n);
    AheadShrinks(n, used, Block(n), Block(m));
    AheadSameKind(m, n, used, Block(m));
  }

  /** A network counts as taken when an allocated address, or the address of an
      allocated network no larger than it, lies in it. */
  lemma AllocatedIff(n: IPNet, used: seq<IPNet>)
    ensures Allocated(n, used) <==>
      exists u | u in used :: u.v6 == n.v6 && n.prefix <= u.prefix && HasAddress(n, u.value)
  {
    forall u: IPNet
      ensures HasAddress(n, u.value) <==> u.value / Size(n) == Block(n)
    {
      BlockOfAddress(n, u.value);
    }
  }

  /** For IPv4 the search returns the base if it is free and otherwise the lowest
      free network behind it; it raises exactly when there is none. */
  lemma {:induction false} LowestFreeNetwork(n: IPNet, used: seq<IPNet>)
    requires !n.v6
    ensures NextFree(n, used) == Some(n) <==> !Allocated(n, used)
    ensures NextFree(n, used).Some? ==>
      var r := NextFree(n, used).value;
      && SameKind(r, n) && !Allocated(r, used) && n.value <= r.value && (r != n ==> First(r) == r.value)
      && forall m: IPNet | SameKind(m, n) && First(m) == m.value && n.value < m.value < r.value :: Allocated(m, used)
    ensures NextFree(n, used).None? <==>
      && Allocated(n, used)
      && forall m: IPNet | SameKind(m, n) && First(m) == m.value && n.value < m.value :: Allocated(m, used)
    decreases Pow2(Width(n.v6)) - n.value
  {
    if Allocated(n, used) {
      forall m: IPNet | SameKind(m, n) && First(m) == m.value && n.value < m.value
        ensures Advance(n).Some? && Advance(n).value.value <= m.value
      {
        NothingSkipped(n, m);
      }
      if Advance(n).Some? {
        AdvanceMovesBlocks(n);
        LowestFreeNetwork(Advance(n).value, used);
        assert First(Advance(n).value) == Advance(n).value.value;
      }
    }
  }

  /** With mixed prefix lengths the network found overlaps exactly the larger
      allocated networks that cover it. */
  lemma FoundIsDisjointIff(n: IPNet, used: seq<IPNet>, u: IPNet)
    requires NextFree(n, used).Some? && u in used
    ensures Disjoint(NextFree(n, used).value, u) <==> !Contains(u, NextFree(n, used).value)
    ensures u.prefix >= n.prefix ==> Disjoint(NextFree(n, used).value, u)
  {
    var m := NextFree(n, used).value;
    DisjointIff(m, u);
    if Contains(u, m) && u.prefix >= n.prefix {
      BlockOfAddress(u, m.value);
      BlockOfAddress(m, m.value);
      SharedAddressIsContained(m, u, m.value);
    }
  }

  /** A network shorter than the prefix searched for is not seen by the search
      started inside it. */
  lemma LargerIsNotSeen(u: IPNet, p: nat)
    requires u.prefix < p <= Width(u.v6)
    ensures NextFree(u.(prefix := p), [u]) == Some(u.(prefix := p))
    ensures !Disjoint(u.(prefix := p), u)
  {
    var n: IPNet := u.(prefix := p);
    DisjointIff(n, u);
  }

  /** The allocated networks that every search for prefix `p` avoids, whatever
      its base and whatever else is allocated: those no larger than `p`. */
  lemma AlwaysAvoidedIff(u: IPNet, p: nat)
    requires p <= Width(u.v6)
    ensures u.prefix >= p <==>
      forall n: IPNet, used: seq<IPNet> | n.v6 == u.v6 && n.prefix == p && u in used && NextFree(n, used).Some? ::
        Disjoint(NextFree(n, used).value, u)
  {
    if u.prefix >= p {
      forall n: IPNet, used: seq<IPNet> | n.v6 == u.v6 && n.prefix == p && u in used && NextFree(n, used).Some?
        ensures Disjoint(NextFree(n, used).value, u)
      {
        FoundIsDisjointIff(n, used, u);
      }
    } else {
      LargerIsNotSeen(u, p);
      var n: IPNet := u.(prefix := p);
      assert u in [u];
      assert n.v6 == u.v6 && n.prefix == p && NextFree(n, [u]) == Some(n);
    }
  }

  // ---------- the loop ----------

  /** netaddr.IPNetwork: `value` moves in place, version and prefix stay. */
  class IPNetwork {
    const v6: bool
    const prefix: nat
    var value: nat

    ghost predicate Valid()
      reads this
    {
      WellFormed(Net(v6, value, prefix))
    }

    function Snapshot(): IPNet
      requires Valid()
      reads this
    {
      Net(v6, value, prefix)
    }

    constructor (n: IPNet)
      ensures Valid() && Snapshot() == n
    {
      v6, prefix, value := n.v6, n.prefix, n.value;
    }

    /** `network += k`; false is the IndexError, which leaves the object alone. */
    method InPlaceAdd(k: nat) returns (ok: bool)
      requires Valid()
      modifies this
      ensures Valid() && SameKind(Snapshot(), old(Snapshot()))
      ensures var n := old(Snapshot());
        && ok == (First(n) + k * Size(n) + Size(n) <= Pow2(Width(v6)))
        && value == if ok then First(n) + k * Size(n) else n.value
    {
      var n := Snapshot();
      var moved := First(n) + k * Size(n);
      ok := moved + (Size(n) - 1) <= Pow2(Width(v6)) - 1;
      if ok {
        value := moved;
      }
    }
  }

  method IsIpNetworkAllocated(net: IPNetwork, used: seq<IPNet>) returns (found: bool)
    requires net.Valid()
    ensures found == Allocated(net.Snapshot(), used)
  {
    for i := 0 to |used|
      invariant !Allocated(net.Snapshot(), used[..i])
    {
      if Contains(net.Snapshot(), used[i]) {
        assert used[i] in used;
        return true;
      }
      assert used[..i + 1] == used[..i] + [used[i]];
    }
    assert used[..|used|] == used;
    return false;
  }

  /** Moves the caller's network object until it is free. */
  method SetNextAvailableIpNetwork(net: IPNetwork, used: seq<IPNet>) returns (ok: bool)
    requires net.Valid()
    modifies net
    ensures net.Valid()
    ensures ok == NextFree(old(net.Snapshot()), used).Some?
    ensures ok ==> net.Snapshot() == NextFree(old(net.Snapshot()), used).value
  {
    ghost var start := net.Snapshot();
    var taken := IsIpNetworkAllocated(net, used);
    while taken
      invariant net.Valid() && taken == Allocated(net.Snapshot(), used)
      invariant NextFree(net.Snapshot(), used) == NextFree(start, used)
      decreases Pow2(Width(net.v6)) - net.value
    {
      AdvanceIfAny(net.Snapshot());
      if net.v6 {
        ok := net.InPlaceAdd(Pow2(72));
      } else {
        ok := net.InPlaceAdd(1);
      }
      if !ok {
        return false;
      }
      taken := IsIpNetworkAllocated(net, used);
    }
    return true;
  }

  lemma AdvanceIfAny(n: IPNet)
    ensures Advance(n).Some? ==> n.value < Advance(n).value.value
  {
    if Advance(n).Some? { AdvanceMovesBlocks(n); }
  }
}
