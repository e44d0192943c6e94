/** IP networks in prefix notation (section 3.1 of RFC 4632), with the parts of
    netaddr.IPNetwork the asset allocator relies on: the one-way containment
    test and the in-place increment. */
module Cidr {
  import opened Text

  function Pow2(n: nat): (p: nat)
    ensures p >= 1
  {
    if n == 0 then 1 else 2 * Pow2(n - 1)
  }

  lemma {:induction false} Pow2Sum(m: nat, n: nat)
    ensures Pow2(m + n) == Pow2(m) * Pow2(n)
  {
    if m > 0 {
      Pow2Sum(m - 1, n);
      assert Pow2(m) * Pow2(n) == 2 * (Pow2(m - 1) * Pow2(n));
    }
  }

  function Width(v6: bool): nat {
    if v6 then 128 else 32
  }

  /** An address with its prefix length; host bits may be set. */
  datatype RawNet = Net(v6: bool, value: nat, prefix: nat)

  predicate WellFormed(n: RawNet) {
    n.prefix <= Width(n.v6) && n.value < Pow2(Width(n.v6))
  }

  type IPNet = n: RawNet | WellFormed(n) witness Net(false, 0, 0)

  function Size(n: IPNet): (s: nat)
    ensures s >= 1
  {
    Pow2(Width(n.v6) - n.prefix)
  }

  function Block(n: IPNet): nat {
    n.value / Size(n)
  }

  function First(n: IPNet): nat {
    Block(n) * Size(n)
  }

  predicate HasAddress(n: IPNet, x: nat) {
    First(n) <= x < First(n) + Size(n)
  }

  predicate SameKind(a: IPNet, b: IPNet) {
    a.v6 == b.v6 && a.prefix == b.prefix
  }

  /** `obj in net` of netaddr: an address or an equal or smaller network inside
      `net`; a larger network that covers `net` is not found. */
  predicate Contains(net: IPNet, obj: IPNet) {
    net.v6 == obj.v6 && net.prefix <= obj.prefix && obj.value / Size(net) == Block(net)
  }

  ghost predicate Disjoint(a: IPNet, b: IPNet) {
    a.v6 == b.v6 ==> forall x: nat :: !(HasAddress(a, x) && HasAddress(b, x))
  }

  // ---------- block arithmetic ----------

  lemma CancelLess(m: int, n: int, d: nat)
    requires d > 0 && m * d < n * d
    ensures m < n
  {
    assert (n - m) * d == n * d - m * d;
  }

  lemma ScaleLeq(m: int, n: int, d: nat)
    requires m <= n
    ensures m * d <= n * d
  {
    assert (n - m) * d == n * d - m * d;
  }

  lemma DivUnique(x: nat, d: nat, q: nat)
    requires d > 0 && q * d <= x < q * d + d
    ensures x / d == q
  {
    var r := x / d;
    assert r * d <= x < (r + 1) * d && x < (q + 1) * d;
    CancelLess(r, q + 1, d);
    CancelLess(q, r + 1, d);
  }

  lemma NestedBounds(x: nat, d: nat, k: nat, q: nat, a: nat, m: nat)
    requires q * d <= x < q * d + d && a * k <= q < a * k + k
    requires m == k * d
    ensures a * m <= x < a * m + m
  {
    ScaleLeq(a * k, q, d);
    ScaleLeq(q + 1, a * k + k, d);
    Assoc(a, k, d);
  }

  lemma Assoc(a: nat, k: nat, d: nat)
    ensures a * k * d == a * (k * d)
    ensures (a * k + k) * d == a * (k * d) + k * d
  {
  }

  lemma DivOfDiv(x: nat, d: nat, k: nat, m: nat)
    requires d > 0 && k > 0 && m == k * d && m > 0
    ensures x / d / k == x / m
  {
    NestedBounds(x, d, k, x / d, x / d / k, m);
    DivUnique(x, m, x / d / k);
  }

  lemma BlockOfAddress(n: IPNet, x: nat)
    ensures HasAddress(n, x) <==> x / Size(n) == Block(n)
  {
    if HasAddress(n, x) {
      DivUnique(x, Size(n), Block(n));
    } else {
      assert x / Size(n) * Size(n) <= x < x / Size(n) * Size(n) + Size(n);
    }
  }

  /** A block of the shorter prefix is a union of blocks of the longer one. */
  lemma CoarserBlock(a: IPNet, b: IPNet, x: nat)
    requires a.v6 == b.v6 && a.prefix <= b.prefix
    ensures x / Size(a) == x / Size(b) / Pow2(b.prefix - a.prefix)
  {
    Pow2Sum(b.prefix - a.prefix, Width(b.v6) - b.prefix);
    DivOfDiv(x, Size(b), Pow2(b.prefix - a.prefix), Size(a));
  }

  lemma SharedAddressIsContained(a: IPNet, b: IPNet, x: nat)
    requires a.v6 == b.v6 && a.prefix <= b.prefix
    requires HasAddress(a, x) && HasAddress(b, x)
    ensures Contains(a, b)
  {
    BlockOfAddress(a, x);
    BlockOfAddress(b, x);
    CoarserBlock(a, b, x);
    CoarserBlock(a, b, b.value);
  }

  /** Two networks share no address exactly when neither containment test
      fires: the one-way test alone decides it only between equal prefixes. */
  lemma DisjointIff(a: IPNet, b: IPNet)
    ensures Disjoint(a, b) <==> !Contains(a, b) && !Contains(b, a)
    ensures SameKind(a, b) ==> (Disjoint(a, b) <==> !Contains(a, b))
  {
    BlockOfAddress(a, a.value);
    BlockOfAddress(a, b.value);
    BlockOfAddress(b, a.value);
    BlockOfAddress(b, b.value);
    if !Disjoint(a, b) {
      var x: nat :| HasAddress(a, x) && HasAddress(b, x);
      if a.prefix <= b.prefix {
        SharedAddressIsContained(a, b, x);
      } else {
        SharedAddressIsContained(b, a, x);
      }
    }
  }

  lemma LastBlockFits(value: nat, size: nat, blocks: nat, space: nat)
    requires size > 0 && space == blocks * size && value < space
    ensures value / size * size + size <= space
  {
    assert value / size * size <= value;
    CancelLess(value / size, blocks, size);
    ScaleLeq(value / size + 1, blocks, size);
  }

  lemma BlockFits(n: IPNet)
    ensures First(n) + Size(n) <= Pow2(Width(n.v6))
  {
    Pow2Sum(n.prefix, Width(n.v6) - n.prefix);
    LastBlockFits(n.value, Size(n), Pow2(n.prefix), Pow2(Width(n.v6)));
  }

  // ---------- the increment ----------

  /** Addresses skipped by one increment: `+= 1` for IPv4 and `+= 2**72` for
      IPv6, both counted in networks of the operand's own size. */
  function Increment(v6: bool): (k: nat)
    ensures k >= 1
  {
    if v6 then Pow2(72) else 1
  }

  function Stride(n: IPNet): (s: nat)
    ensures s >= Size(n)
  {
    Times(Increment(n.v6), Size(n))
  }

  function Times(k: nat, s: nat): (p: nat)
    requires k >= 1
    ensures p >= s && p == k * s
  {
    assert k * s == (k - 1) * s + s;
    k * s
  }

  /** IPNetwork.__iadd__: moves to a network boundary; None is the IndexError
      past the end of the address space. */
  function Advance(n: IPNet): (r: Option<IPNet>)
    ensures r.Some? <==> First(n) + Stride(n) + Size(n) <= Pow2(Width(n.v6))
    ensures r.Some? ==> SameKind(r.value, n) && r.value.value == First(n) + Stride(n)
  {
    var value := First(n) + Stride(n);
    if value + (Size(n) - 1) > Pow2(Width(n.v6)) - 1 then None
    else Some(n.(value := value))
  }

  lemma AdvanceMovesBlocks(n: IPNet)
    requires Advance(n).Some?
    ensures Block(Advance(n).value) == Block(n) + Increment(n.v6)
    ensures First(Advance(n).value) == First(n) + Stride(n)
    ensures First(n) <= n.value < Advance(n).value.value
  {
    var m := Advance(n).value;
    assert m.value == (Block(n) + Increment(n.v6)) * Size(n);
    DivUnique(m.value, Size(n), Block(n) + Increment(n.v6));
    assert HasAddress(n, n.value) by { BlockOfAddress(n, n.value); }
  }

  /** Adding a power of two leaves the low bits alone exactly when the power
      lies above them. */
  lemma LowBits(x: nat, e: nat, low: nat)
    ensures (x + Pow2(e)) % Pow2(low) == x % Pow2(low) <==> e >= low
  {
    if e >= low {
      Pow2Sum(e - low, low);
      AddMultiple(x, Pow2(e - low), Pow2(low));
    } else {
      Pow2Sum(low - e, e);
      assert Pow2(low - e) >= 2;
      ScaleLeq(2, Pow2(low - e), Pow2(e));
      AddSmall(x, Pow2(e), Pow2(low));
    }
  }

  /** An IPv6 step adds 2^(200-prefix), so it leaves the low `low` bits alone
      exactly when prefix + low <= 200. With low = 80, the subnet and interface
      id of section 2.5.4 of RFC 4291, only the global routing prefix moves for
      prefix lengths up to 120 and for no longer ones. */
  lemma StepKeepsLowBits(n: IPNet, low: nat)
    requires n.v6 && Advance(n).Some?
    ensures Advance(n).value.value == First(n) + Pow2(200 - n.prefix)
    ensures Advance(n).value.value % Pow2(low) == First(n) % Pow2(low) <==> n.prefix + low <= 200
  {
    StrideIsPower(n, 72);
    LowBits(First(n), 200 - n.prefix, low);
  }

  lemma Pow2Leq(m: nat, n: nat)
    requires m <= n
    ensures Pow2(m) <= Pow2(n)
  {
    Pow2Sum(n - m, m);
    ScaleLeq(1, Pow2(n - m), Pow2(m));
  }

  /** The IPv6 step never fits for prefix lengths up to 72: such a network can
      not be moved at all. */
  lemma ShortPrefixCannotMove(n: IPNet)
    requires n.v6 && n.prefix <= 72
    ensures Advance(n).None?
  {
    StrideIsPower(n, 72);
    Pow2Leq(Width(n.v6), 72 + Width(n.v6) - n.prefix);
    LongStride(n, Stride(n), Pow2(Width(n.v6)));
  }

  lemma LongStride(n: IPNet, stride: nat, space: nat)
    requires stride == Stride(n) && space == Pow2(Width(n.v6)) && stride >= space
    ensures Advance(n).None?
  {
  }

  lemma StrideIsPower(n: IPNet, k: nat)
    requires Increment(n.v6) == Pow2(k)
    ensures Stride(n) == Pow2(k + Width(n.v6) - n.prefix)
  {
    Pow2Sum(k, Width(n.v6) - n.prefix);
  }

  lemma AddMultiple(x: nat, k: nat, m: nat)
    requires m > 0
    ensures (x + k * m) % m == x % m
  {
    assert x + k * m == (x / m + k) * m + x % m;
    DivUnique(x + k * m, m, x / m + k);
  }

  lemma AddSmall(x: nat, s: nat, m: nat)
    requires 0 < s < m
    ensures (x + s) % m != x % m
  {
    var q := x / m;
    var r := x % m;
    if r + s < m {
      DivUnique(x + s, m, q);
    } else {
      assert (q + 1) * m == q * m + m;
      DivUnique(x + s, m, q + 1);
    }
  }

  /** The distance of two candidates in addresses: the next network for IPv4,
      2^72 networks on for IPv6. */
  lemma StrideInAddresses(n: IPNet)
    ensures Stride(n) == if n.v6 then Pow2(200 - n.prefix) else Pow2(32 - n.prefix)
  {
    StrideIsPower(n, if n.v6 then 72 else 0);
  }

  lemma NextBoundary(b: nat, q: nat, size: nat, v: nat)
    requires b * size <= v < q * size
    ensures b * size + size <= q * size
  {
    CancelLess(b, q, size);
    ScaleLeq(b + 1, q, size);
  }

  lemma ShortStride(n: IPNet)
    requires !n.v6
    ensures Stride(n) == Size(n)
  {
  }

  lemma FirstIsBelow(n: IPNet)
    ensures First(n) <= n.value
  {
    BlockOfAddress(n, n.value);
  }

  /** There is no network boundary between an IPv4 network and the next
      candidate, nor behind the last one. */
  lemma NothingSkipped(n: IPNet, m: IPNet)
    requires !n.v6 && SameKind(m, n) && First(m) == m.value && n.value < m.value
    ensures Advance(n).Some? && Advance(n).value.value <= m.value
  {
    ShortStride(n);
    FirstIsBelow(n);
    BlockFits(m);
    NextBoundary(Block(n), Block(m), Size(n), n.value);
  }
}
