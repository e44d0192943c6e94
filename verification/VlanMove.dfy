/** Moving the host's addresses from a bridge to the VLAN interface above it,
    one `ip addr add` and `ip addr del` at a time, each of which may fail. */
module VlanMove {
  import opened Sequences

  // ---------- addresses ----------

  predicate IsV6(cidr: string) {
    ':' in cidr
  }

  function Lower(c: char): char {
    if 'A' <= c <= 'Z' then (c as int + 32) as char else c
  }

  /** addr.lower().startswith("fe80:") */
  predicate StartsLinkLocal(cidr: string) {
    |cidr| >= 5 && Lower(cidr[0]) == 'f' && Lower(cidr[1]) == 'e' && cidr[2] == '8' && cidr[3] == '0' && cidr[4] == ':'
  }

  predicate Movable(cidr: string) {
    !(IsV6(cidr) && StartsLinkLocal(cidr))
  }

  /** The addresses of one family to move, in the order `ip addr` lists them. */
  function Listing(addrs: seq<string>, v6: bool): seq<string> {
    if addrs == [] then []
    else if IsV6(addrs[0]) == v6 && Movable(addrs[0]) then [addrs[0]] + Listing(addrs[1..], v6)
    else Listing(addrs[1..], v6)
  }

  function ToMove(addrs: seq<string>): seq<string> {
    Listing(addrs, false) + Listing(addrs, true)
  }

  /** `ip addr del` */
  function Del(addrs: seq<string>, cidr: string): seq<string> {
    if addrs == [] then []
    else if addrs[0] == cidr then addrs[1..]
    else [addrs[0]] + Del(addrs[1..], cidr)
  }

  // ---------- the move ----------

  datatype State = State(bridge: seq<string>, vlan: seq<string>)

  /** Whether the add and the delete command for one address succeed. */
  datatype Outcome = Outcome(addOk: bool, delOk: bool)

  /** The states one address passes through: a failing command raises and ends
      its turn. */
  function MoveOne(s: State, cidr: string, o: Outcome): (trace: seq<State>)
    ensures trace != []
  {
    if cidr !in s.vlan && !o.addOk then [s]
    else
      var added := if cidr in s.vlan then s else s.(vlan := s.vlan + [cidr]);
      if o.delOk then [added, added.(bridge := Del(added.bridge, cidr))] else [added]
  }

  function Last(trace: seq<State>): State
    requires trace != []
  {
    trace[|trace| - 1]
  }

  /** Every state a move of `cidrs` passes through, from the first on. */
  function MoveTrace(s: State, cidrs: seq<string>, outcomes: seq<Outcome>): (trace: seq<State>)
    requires |outcomes| == |cidrs|
    ensures trace != []
    decreases |cidrs|
  {
    if cidrs == [] then [s]
    else
      var one := MoveOne(s, cidrs[0], outcomes[0]);
      [s] + one + MoveTrace(Last(one), cidrs[1..], outcomes[1..])
  }

  function MoveAll(s: State, cidrs: seq<string>, outcomes: seq<Outcome>): State
    requires |outcomes| == |cidrs|
    decreases |cidrs|
  {
    if cidrs == [] then s else MoveAll(Last(MoveOne(s, cidrs[0], outcomes[0])), cidrs[1..], outcomes[1..])
  }

  // ---------- nothing is lost ----------

  ghost function Held(s: State): set<string> {
    (set a | a in s.bridge) + (set a | a in s.vlan)
  }

  lemma {:induction false} DelMembers(addrs: seq<string>, cidr: string)
    ensures forall a :: a in addrs ==> a == cidr || a in Del(addrs, cidr)
    ensures forall a :: a in Del(addrs, cidr) ==> a in addrs
  {
    if addrs != [] {
      DelMembers(addrs[1..], cidr);
      assert addrs == [addrs[0]] + addrs[1..];
    }
  }

  lemma AddHolds(s: State, cidr: string)
    requires cidr in Held(s)
    ensures Held(s.(vlan := s.vlan + [cidr])) == Held(s)
  {
  }

  lemma DelHolds(s: State, cidr: string)
    requires cidr in s.vlan
    ensures Held(s.(bridge := Del(s.bridge, cidr))) == Held(s)
  {
    DelMembers(s.bridge, cidr);
  }

  lemma MoveOneHolds(s: State, cidr: string, o: Outcome)
    requires cidr in s.bridge || cidr in s.vlan
    ensures forall t | t in MoveOne(s, cidr, o) :: Held(t) == Held(s)
  {
    AddHolds(s, cidr);
    DelHolds(if cidr in s.vlan then s else s.(vlan := s.vlan + [cidr]), cidr);
  }

  /** Whatever commands fail, in every state on the way each address is on the
      bridge or on the VLAN interface, and no other address appears. */
  lemma {:induction false} NoneLost(s: State, cidrs: seq<string>, outcomes: seq<Outcome>)
    requires |outcomes| == |cidrs| && forall c | c in cidrs :: c in Held(s)
    ensures forall t | t in MoveTrace(s, cidrs, outcomes) :: Held(t) == Held(s)
    ensures Last(MoveTrace(s, cidrs, outcomes)) == MoveAll(s, cidrs, outcomes)
    decreases |cidrs|
  {
    if cidrs != [] {
      var one := MoveOne(s, cidrs[0], outcomes[0]);
      assert cidrs[0] in cidrs;
      MoveOneHolds(s, cidrs[0], outcomes[0]);
      assert Last(one) in one;
      NoneLost(Last(one), cidrs[1..], outcomes[1..]);
    }
  }

  lemma {:induction false} ListingMembers(addrs: seq<string>, v6: bool)
    ensures forall a :: a in Listing(addrs, v6) <==> a in addrs && IsV6(a) == v6 && Movable(a)
  {
    if addrs != [] {
      ListingMembers(addrs[1..], v6);
      assert addrs == [addrs[0]] + addrs[1..];
    }
  }

  lemma ToMoveMembers(addrs: seq<string>)
    ensures forall a :: a in ToMove(addrs) <==> a in addrs && Movable(a)
  {
    ListingMembers(addrs, false);
    ListingMembers(addrs, true);
  }

  // ---------- the loop ----------

  class Iface {
    var addrs: seq<string>

    constructor (addrs: seq<string>)
      ensures this.addrs == addrs
    {
      this.addrs := addrs;
    }
  }

  /** The loop; `trace` records the two interfaces before the first command and
      after every command that succeeded. */
  method MoveBridgeAddressesToVlan(bridge: Iface, vlan: Iface, outcomes: seq<Outcome>) returns (ghost trace: seq<State>)
    requires bridge != vlan && |outcomes| == |ToMove(bridge.addrs)|
    modifies bridge, vlan
    ensures State(bridge.addrs, vlan.addrs) ==
      MoveAll(State(old(bridge.addrs), old(vlan.addrs)), ToMove(old(bridge.addrs)), outcomes)
    ensures trace != [] && trace[0] == State(old(bridge.addrs), old(vlan.addrs))
    ensures Last(trace) == State(bridge.addrs, vlan.addrs)
    ensures forall t | t in trace :: Held(t) == Held(trace[0])
  {
    var cidrs := ToMove(bridge.addrs);
    ghost var start := State(bridge.addrs, vlan.addrs);
    ghost var end := MoveAll(start, cidrs, outcomes);
    trace := [start];
    ToMoveMembers(bridge.addrs);
    assert cidrs[0..] == cidrs && outcomes[0..] == outcomes;
    for i := 0 to |cidrs|
      invariant MoveAll(State(bridge.addrs, vlan.addrs), cidrs[i..], outcomes[i..]) == end
      invariant trace != [] && trace[0] == start && Last(trace) == State(bridge.addrs, vlan.addrs)
      invariant forall t | t in trace :: Held(t) == Held(start)
    {
      assert cidrs[i..][0] == cidrs[i] && cidrs[i..][1..] == cidrs[i + 1..];
      assert outcomes[i..][0] == outcomes[i] && outcomes[i..][1..] == outcomes[i + 1..];
      assert Last(trace) in trace && cidrs[i] in Held(start);
      var ok := true;
      if cidrs[i] !in vlan.addrs {
        ok := outcomes[i].addOk;
        if ok {
          AddHolds(State(bridge.addrs, vlan.addrs), cidrs[i]);
          vlan.addrs := vlan.addrs + [cidrs[i]];
          trace := trace + [State(bridge.addrs, vlan.addrs)];
        }
      }
      if ok && outcomes[i].delOk {
        DelHolds(State(bridge.addrs, vlan.addrs), cidrs[i]);
        bridge.addrs := Del(bridge.addrs, cidrs[i]);
        trace := trace + [State(bridge.addrs, vlan.addrs)];
      }
    }
  }

  // ---------- where each address ends up ----------

  lemma {:induction false} DelDistinct(addrs: seq<string>, cidr: string)
    requires Distinct(addrs)
    ensures Distinct(Del(addrs, cidr)) && cidr !in Del(addrs, cidr)
  {
    if addrs != [] {
      assert addrs == [addrs[0]] + addrs[1..];
      DistinctCons(addrs[0], addrs[1..]);
      DelDistinct(addrs[1..], cidr);
      DelMembers(addrs[1..], cidr);
      DistinctCons(addrs[0], Del(addrs[1..], cidr));
    }
  }

  lemma MoveOneExact(s: State, cidr: string, o: Outcome)
    requires Distinct(s.bridge)
    ensures var t := Last(MoveOne(s, cidr, o));
      && Distinct(t.bridge)
      && (forall a | a != cidr :: (a in t.bridge <==> a in s.bridge) && (a in t.vlan <==> a in s.vlan))
      && (cidr in t.vlan <==> cidr in s.vlan || o.addOk)
      && (cidr in t.bridge <==> cidr in s.bridge && !((cidr in s.vlan || o.addOk) && o.delOk))
  {
    DelMembers(s.bridge, cidr);
    DelDistinct(s.bridge, cidr);
  }

  /** An address to be moved is on the VLAN interface afterwards exactly when it
      was there or its add succeeded, and is off the bridge exactly when, on top
      of that, its delete succeeded. All other addresses stay where they are. */
  lemma {:induction false} MoveExact(s: State, cidrs: seq<string>, outcomes: seq<Outcome>)
    requires |outcomes| == |cidrs| && Distinct(s.bridge) && Distinct(cidrs)
    ensures var t := MoveAll(s, cidrs, outcomes);
      && Distinct(t.bridge)
      && (forall a | a !in cidrs :: (a in t.bridge <==> a in s.bridge) && (a in t.vlan <==> a in s.vlan))
      && (forall i | 0 <= i < |cidrs| ::
          && (cidrs[i] in t.vlan <==> cidrs[i] in s.vlan || outcomes[i].addOk)
          && (cidrs[i] in t.bridge <==>
              cidrs[i] in s.bridge && !((cidrs[i] in s.vlan || outcomes[i].addOk) && outcomes[i].delOk)))
    decreases |cidrs|
  {
    if cidrs != [] {
      var next := Last(MoveOne(s, cidrs[0], outcomes[0]));
      assert cidrs == [cidrs[0]] + cidrs[1..];
      DistinctCons(cidrs[0], cidrs[1..]);
      MoveOneExact(s, cidrs[0], outcomes[0]);
      MoveExact(next, cidrs[1..], outcomes[1..]);
      var t := MoveAll(s, cidrs, outcomes);
      forall i | 0 <= i < |cidrs|
        ensures cidrs[i] in t.vlan <==> cidrs[i] in s.vlan || outcomes[i].addOk
        ensures cidrs[i] in t.bridge <==>
          cidrs[i] in s.bridge && !((cidrs[i] in s.vlan || outcomes[i].addOk) && outcomes[i].delOk)
      {
        if i > 0 { assert cidrs[1..][i - 1] == cidrs[i] && outcomes[1..][i - 1] == outcomes[i]; }
      }
    }
  }

  lemma {:induction false} ListingDistinct(addrs: seq<string>, v6: bool)
    requires Distinct(addrs)
    ensures Distinct(Listing(addrs, v6))
  {
    if addrs != [] {
      assert addrs == [addrs[0]] + addrs[1..];
      DistinctCons(addrs[0], addrs[1..]);
      ListingDistinct(addrs[1..], v6);
      ListingMembers(addrs[1..], v6);
      DistinctCons(addrs[0], Listing(addrs[1..], v6));
    }
  }

  lemma ToMoveDistinct(addrs: seq<string>)
    requires Distinct(addrs)
    ensures Distinct(ToMove(addrs))
  {
    ListingDistinct(addrs, false);
    ListingDistinct(addrs, true);
    ListingMembers(addrs, false);
    ListingMembers(addrs, true);
    var a := Listing(addrs, false);
    var b := Listing(addrs, true);
    forall i, j | 0 <= i < j < |a + b|
      ensures (a + b)[i] != (a + b)[j]
    {
      if i < |a| <= j { assert (a + b)[i] in a && (a + b)[j] in b; }
    }
  }

  /** If every command succeeds, the bridge keeps exactly its IPv6 link-local
      addresses, the VLAN interface holds what it held and all the others, and a
      second move changes nothing, whatever would fail then. */
  lemma MoveSucceeds(s: State, outcomes: seq<Outcome>)
    requires Distinct(s.bridge) && |outcomes| == |ToMove(s.bridge)|
    requires forall i | 0 <= i < |outcomes| :: outcomes[i] == Outcome(true, true)
    ensures var t := MoveAll(s, ToMove(s.bridge), outcomes);
      && (forall a :: a in t.bridge <==> a in s.bridge && IsV6(a) && StartsLinkLocal(a))
      && (forall a :: a in t.vlan <==> a in s.vlan || (a in s.bridge && !(IsV6(a) && StartsLinkLocal(a))))
      && ToMove(t.bridge) == []
      && MoveAll(t, ToMove(t.bridge), []) == t
  {
    var cidrs := ToMove(s.bridge);
    var t := MoveAll(s, cidrs, outcomes);
    ToMoveMembers(s.bridge);
    ToMoveDistinct(s.bridge);
    MoveExact(s, cidrs, outcomes);
    forall a
      ensures a in t.bridge <==> a in s.bridge && !Movable(a)
      ensures a in t.vlan <==> a in s.vlan || (a in s.bridge && Movable(a))
    {
      if a in cidrs {
        var i :| 0 <= i < |cidrs| && cidrs[i] == a;
      }
    }
    NothingMovable(t.bridge);
  }

  lemma NothingMovable(addrs: seq<string>)
    requires forall a | a in addrs :: !Movable(a)
    ensures ToMove(addrs) == []
  {
    NothingListed(addrs, false);
    NothingListed(addrs, true);
  }

  lemma {:induction false} NothingListed(addrs: seq<string>, v6: bool)
    requires forall a | a in addrs :: !Movable(a)
    ensures Listing(addrs, v6) == []
  {
    if addrs != [] { NothingListed(addrs[1..], v6); }
  }

  // ---------- in so many words ----------

  /** Case does not matter to the link-local prefix. */
  lemma LinkLocalTexts(a: string)
    ensures StartsLinkLocal(a) <==> "fe80:" <= a || "Fe80:" <= a || "fE80:" <= a || "FE80:" <= a
  {
  }

  function Fresh(cidrs: seq<string>, held: seq<string>): seq<string> {
    if cidrs == [] then []
    else if cidrs[0] in held then Fresh(cidrs[1..], held)
    else [cidrs[0]] + Fresh(cidrs[1..], held)
  }

  lemma {:induction false} FreshMembers(cidrs: seq<string>, held: seq<string>)
    ensures forall a :: a in Fresh(cidrs, held) <==> a in cidrs && a !in held
  {
    if cidrs != [] {
      FreshMembers(cidrs[1..], held);
      assert forall a :: a in cidrs <==> a == cidrs[0] || a in cidrs[1..];
    }
  }

  lemma {:induction false} FreshConcat(xs: seq<string>, ys: seq<string>, held: seq<string>)
    ensures Fresh(xs + ys, held) == Fresh(xs, held) + Fresh(ys, held)
  {
    if xs == [] {
      assert xs + ys == ys;
    } else {
      assert (xs + ys)[0] == xs[0] && (xs + ys)[1..] == xs[1..] + ys;
      FreshConcat(xs[1..], ys, held);
      ConcatAssoc([xs[0]], Fresh(xs[1..], held), Fresh(ys, held));
    }
  }

  lemma {:induction false} FreshOther(cidrs: seq<string>, held: seq<string>, more: string)
    requires more !in cidrs
    ensures Fresh(cidrs, held + [more]) == Fresh(cidrs, held)
  {
    if cidrs != [] { FreshOther(cidrs[1..], held, more); }
  }

  /** With adds that succeed, new addresses join the VLAN interface in the order
      they are moved. */
  lemma {:induction false} MoveAppends(s: State, cidrs: seq<string>, outcomes: seq<Outcome>)
    requires |outcomes| == |cidrs| && Distinct(cidrs)
    requires forall i | 0 <= i < |outcomes| :: outcomes[i].addOk
    ensures MoveAll(s, cidrs, outcomes).vlan == s.vlan + Fresh(cidrs, s.vlan)
    decreases |cidrs|
  {
    if cidrs != [] {
      assert cidrs == [cidrs[0]] + cidrs[1..];
      DistinctCons(cidrs[0], cidrs[1..]);
      var next := Last(MoveOne(s, cidrs[0], outcomes[0]));
      MoveAppends(next, cidrs[1..], outcomes[1..]);
      FreshOther(cidrs[1..], s.vlan, cidrs[0]);
      ConcatAssoc(s.vlan, [cidrs[0]], Fresh(cidrs[1..], s.vlan));
    }
  }

  /** A move without failures, by the texts of the addresses: those with a colon
      that start with fe80: in any case stay on the bridge; of the others the
      IPv4 ones join the VLAN interface first, then the IPv6 ones. */
  lemma MovedTexts(s: State, outcomes: seq<Outcome>) returns (v4: seq<string>, v6: seq<string>)
    requires Distinct(s.bridge) && |outcomes| == |ToMove(s.bridge)|
    requires forall i | 0 <= i < |outcomes| :: outcomes[i] == Outcome(true, true)
    ensures var t := MoveAll(s, ToMove(s.bridge), outcomes);
      && t.vlan == s.vlan + v4 + v6
      && (forall a :: a in v4 <==> a in s.bridge && a !in s.vlan && ':' !in a)
      && (forall a :: a in v6 <==>
          && a in s.bridge && a !in s.vlan && ':' in a
          && !("fe80:" <= a || "Fe80:" <= a || "fE80:" <= a || "FE80:" <= a))
      && (forall a :: a in t.bridge <==>
          a in s.bridge && ':' in a && ("fe80:" <= a || "Fe80:" <= a || "fE80:" <= a || "FE80:" <= a))
  {
    v4, v6 := Fresh(Listing(s.bridge, false), s.vlan), Fresh(Listing(s.bridge, true), s.vlan);
    ToMoveDistinct(s.bridge);
    MoveAppends(s, ToMove(s.bridge), outcomes);
    FreshConcat(Listing(s.bridge, false), Listing(s.bridge, true), s.vlan);
    ConcatAssoc(s.vlan, v4, v6);
    ListingMembers(s.bridge, false);
    ListingMembers(s.bridge, true);
    FreshMembers(Listing(s.bridge, false), s.vlan);
    FreshMembers(Listing(s.bridge, true), s.vlan);
    MoveSucceeds(s, outcomes);
    forall a {
      LinkLocalTexts(a);
    }
  }
}
