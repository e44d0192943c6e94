/** The poll that restarts VMs after their first reboot. It removes a started
    domain from the very list it iterates, so the iterator steps over the
    element behind it. */
module RestartPoll {
  import opened Sequences
  import opened Text

  datatype Domain = Domain(name: string)

  predicate IsNode(d: Domain) {
    Occurs("master", d.name) || Occurs("worker", d.name)
  }

  /** The list left, the domains started, in order, and whether a node was
      looked at. */
  datatype Polled = Polled(left: seq<Domain>, started: seq<Domain>, found: bool)

  /** One poll; `off` are the domains that are shut off when looked at. The
      element behind a started domain is not looked at. */
  function Poll(domains: seq<Domain>, off: set<Domain>): Polled {
    if domains == [] then Polled([], [], false)
    else if IsNode(domains[0]) && domains[0] in off then
      if |domains| == 1 then Polled([], [domains[0]], true)
      else
        var rest := Poll(domains[2..], off);
        Polled([domains[1]] + rest.left, [domains[0]] + rest.started, true)
    else
      var rest := Poll(domains[1..], off);
      Polled([domains[0]] + rest.left, rest.started, IsNode(domains[0]) || rest.found)
  }

  // ---------- the loop ----------

  class DomainList {
    var domains: seq<Domain>

    constructor (domains: seq<Domain>)
      ensures this.domains == domains
    {
      this.domains := domains;
    }

    /** list.remove: the first equal element. */
    method Remove(d: Domain)
      requires d in domains
      modifies this
      ensures exists i | 0 <= i < |old(domains)| ::
        FirstAt(old(domains), d, i) && domains == old(domains)[..i] + old(domains)[i + 1..]
    {
      var i := 0;
      ghost var k :| 0 <= k < |domains| && domains[k] == d;
      while domains[i] != d
        invariant 0 <= i <= k && d !in domains[..i] && domains == old(domains)
        decreases k - i
      {
        i := i + 1;
      }
      assert FirstAt(domains, d, i);
      domains := domains[..i] + domains[i + 1..];
    }
  }

  predicate FirstAt(domains: seq<Domain>, d: Domain, i: nat) {
    i < |domains| && domains[i] == d && d !in domains[..i]
  }

  /** At position `i` of the shrunk list, what is still to come completes the
      whole poll; the position may be one past a list that lost its last
      element. */
  ghost predicate OnTrack(whole: Polled, domains: seq<Domain>, i: nat, started: seq<Domain>, found: bool, off: set<Domain>)
  {
    if i <= |domains| then
      var rest := Poll(domains[i..], off);
      whole == Polled(domains[..i] + rest.left, started + rest.started, found || rest.found)
    else
      i == |domains| + 1 && whole == Polled(domains, started, found)
  }

  /** Iterates by position over the list it shrinks; the result is True only when
      no node was looked at. */
  method RestartVmsAfterFirstReboot(list: DomainList, off: set<Domain>)
    returns (done: bool, started: seq<Domain>)
    requires Distinct(list.domains)
    modifies list
    ensures Polled(list.domains, started, !done) == Poll(old(list.domains), off)
  {
    ghost var whole := Poll(list.domains, off);
    var nodesFound := false;
    started := [];
    var i := 0;
    assert list.domains[0..] == list.domains;
    while i < |list.domains|
      invariant OnTrack(whole, list.domains, i, started, nodesFound, off) && Distinct(list.domains)
      decreases |list.domains| + 1 - i
    {
      var domain := list.domains[i];
      TurnKeepsTrack(whole, list.domains, i, started, nodesFound, off);
      i := i + 1;
      if IsNode(domain) {
        nodesFound := true;
        if domain in off {
          started := started + [domain];
          ghost var before := list.domains;
          list.Remove(domain);
          RemovedAt(before, domain, i - 1, list.domains);
        }
      }
    }
    done := !nodesFound;
  }

  lemma TurnKeepsTrack(whole: Polled, domains: seq<Domain>, i: nat, started: seq<Domain>, found: bool, off: set<Domain>)
    requires i < |domains| && OnTrack(whole, domains, i, started, found, off)
    ensures var d := domains[i];
      if IsNode(d) && d in off then
        OnTrack(whole, domains[..i] + domains[i + 1..], i + 1, started + [d], true, off)
      else
        OnTrack(whole, domains, i + 1, started, found || IsNode(d), off)
  {
    PollStep(domains, i, off);
    var d := domains[i];
    var after := domains[..i] + domains[i + 1..];
    if IsNode(d) && d in off {
      if i + 1 <= |after| {
        ConcatAssoc(started, [d], Poll(after[i + 1..], off).started);
      }
    }
  }

  lemma RemovedAt(before: seq<Domain>, d: Domain, i: nat, after: seq<Domain>)
    requires Distinct(before) && i < |before| && before[i] == d
    requires exists k | 0 <= k < |before| :: FirstAt(before, d, k) && after == before[..k] + before[k + 1..]
    ensures after == before[..i] + before[i + 1..] && Distinct(after)
  {
  }

  /** One turn of the loop at position `i`. */
  lemma PollStep(domains: seq<Domain>, i: nat, off: set<Domain>)
    requires i < |domains|
    ensures var d := domains[i];
      var p := Poll(domains[i..], off);
      var after := domains[..i] + domains[i + 1..];
      if IsNode(d) && d in off then
        if i + 1 <= |after| then
          var rest := Poll(after[i + 1..], off);
          && domains[..i] + p.left == after[..i + 1] + rest.left
          && p.started == [d] + rest.started && p.found
        else
          domains[..i] + p.left == after && p.started == [d] && p.found
      else
        var rest := Poll(domains[i + 1..], off);
        && domains[..i] + p.left == domains[..i + 1] + rest.left
        && p.started == rest.started && p.found == (IsNode(d) || rest.found)
  {
    var tail := domains[i..];
    assert tail[0] == domains[i] && tail[1..] == domains[i + 1..];
    if i + 1 < |domains| {
      assert tail[1] == domains[i + 1] && tail[2..] == (domains[..i] + domains[i + 1..])[i + 1..];
    }
  }

  // ---------- what one poll does ----------

  ghost function Nodes(domains: seq<Domain>): set<Domain> {
    set d | d in domains && IsNode(d)
  }

  function NodeCount(domains: seq<Domain>): nat {
    if domains == [] then 0 else (if IsNode(domains[0]) then 1 else 0) + NodeCount(domains[1..])
  }

  lemma NodesCons(d: Domain, rest: seq<Domain>)
    ensures Nodes([d] + rest) == (if IsNode(d) then {d} else {}) + Nodes(rest)
  {
    assert forall x :: x in [d] + rest <==> x == d || x in rest;
  }

  /** The list without the given domains, in order. */
  function Except(domains: seq<Domain>, gone: set<Domain>): seq<Domain> {
    if domains == [] then []
    else if domains[0] in gone then Except(domains[1..], gone)
    else [domains[0]] + Except(domains[1..], gone)
  }

  lemma {:induction false} ExceptSame(domains: seq<Domain>, s: set<Domain>, t: set<Domain>)
    requires forall d | d in domains :: d in s <==> d in t
    ensures Except(domains, s) == Except(domains, t)
  {
    if domains != [] { ExceptSame(domains[1..], s, t); }
  }

  ghost function Elements(domains: seq<Domain>): set<Domain> {
    set d | d in domains
  }

  lemma {:induction false} PollMembers(domains: seq<Domain>, off: set<Domain>)
    requires Distinct(domains)
    ensures var p := Poll(domains, off);
      && (forall d :: d in domains <==> d in p.left || d in p.started)
      && (forall d | d in p.started :: d !in p.left && IsNode(d) && d in off)
      && Distinct(p.left) && Distinct(p.started)
    decreases |domains|
  {
    if domains != [] {
      var d := domains[0];
      assert domains == [d] + domains[1..];
      DistinctCons(d, domains[1..]);
      if IsNode(d) && d in off && |domains| > 1 {
        var e := domains[1];
        assert domains[1..] == [e] + domains[2..];
        DistinctCons(e, domains[2..]);
        PollMembers(domains[2..], off);
        var rest := Poll(domains[2..], off);
        DistinctCons(d, rest.started);
        DistinctCons(e, rest.left);
      } else if !(IsNode(d) && d in off) {
        PollMembers(domains[1..], off);
        DistinctCons(d, Poll(domains[1..], off).left);
      }
    }
  }

  lemma {:induction false} PollKeepsOrder(domains: seq<Domain>, off: set<Domain>)
    requires Distinct(domains)
    ensures Poll(domains, off).left == Except(domains, Elements(Poll(domains, off).started))
    decreases |domains|
  {
    if domains != [] {
      var d := domains[0];
      var gone := Elements(Poll(domains, off).started);
      assert domains == [d] + domains[1..];
      DistinctCons(d, domains[1..]);
      PollMembers(domains, off);
      if IsNode(d) && d in off && |domains| > 1 {
        var e := domains[1];
        assert domains[1..] == [e] + domains[2..];
        DistinctCons(e, domains[2..]);
        PollMembers(domains[2..], off);
        PollKeepsOrder(domains[2..], off);
        ExceptSame(domains[2..], gone, Elements(Poll(domains[2..], off).started));
        assert domains[1..][1..] == domains[2..];
      } else if !(IsNode(d) && d in off) {
        PollMembers(domains[1..], off);
        PollKeepsOrder(domains[1..], off);
      } else {
        assert domains[1..] == [];
      }
    }
  }

  /** A poll starts only listed nodes that are off, takes exactly those off the
      list, reports True exactly when no node is listed, and starts at least one
      when a listed node is off. */
  lemma PollEffects(domains: seq<Domain>, off: set<Domain>)
    requires Distinct(domains)
    ensures var p := Poll(domains, off);
      && p.left == Except(domains, Elements(p.started))
      && Nodes(domains) == Nodes(p.left) + Elements(p.started) && Nodes(p.left) !! Elements(p.started)
      && Elements(p.started) <= off && Distinct(p.started) && Distinct(p.left)
      && (p.found <==> Nodes(domains) != {})
      && (p.started != [] <==> Nodes(domains) * off != {})
  {
    var p := Poll(domains, off);
    PollMembers(domains, off);
    PollKeepsOrder(domains, off);
    FoundIff(domains, off);
    StartedIff(domains, off);
  }

  lemma {:induction false} FoundIff(domains: seq<Domain>, off: set<Domain>)
    ensures Poll(domains, off).found <==> Nodes(domains) != {}
    decreases |domains|
  {
    if domains != [] {
      assert domains == [domains[0]] + domains[1..];
      NodesCons(domains[0], domains[1..]);
      FoundIff(domains[1..], off);
    }
  }

  lemma {:induction false} StartedIff(domains: seq<Domain>, off: set<Domain>)
    ensures Poll(domains, off).started != [] <==> Nodes(domains) * off != {}
    decreases |domains|
  {
    if domains != [] {
      var d := domains[0];
      assert domains == [d] + domains[1..];
      NodesCons(d, domains[1..]);
      StartedIff(domains[1..], off);
      if IsNode(d) && d in off {
        assert d in Nodes(domains) * off;
      } else {
        assert Nodes(domains) * off == Nodes(domains[1..]) * off;
      }
    }
  }

  lemma {:induction false} StartedListed(domains: seq<Domain>, off: set<Domain>)
    ensures forall d | d in Poll(domains, off).started :: d in domains
    decreases |domains|
  {
    if domains != [] {
      if IsNode(domains[0]) && domains[0] in off && |domains| > 1 {
        StartedListed(domains[2..], off);
      } else {
        StartedListed(domains[1..], off);
      }
    }
  }

  /** A poll starts a listed domain exactly when it is off, has "master" or
      "worker" in its name, and the one listed before it is not started. */
  lemma {:induction false} StartedExactly(domains: seq<Domain>, off: set<Domain>, i: nat)
    requires Distinct(domains) && i < |domains|
    ensures var started := Poll(domains, off).started;
      domains[i] in started <==>
        && domains[i] in off && (Occurs("master", domains[i].name) || Occurs("worker", domains[i].name))
        && (i > 0 ==> domains[i - 1] !in started)
    decreases |domains|
  {
    var d := domains[0];
    StartedListed(domains[1..], off);
    if IsNode(d) && d in off {
      if |domains| > 1 {
        StartedListed(domains[2..], off);
        if i >= 2 {
          assert domains[2..][i - 2] == domains[i] && (i > 2 ==> domains[2..][i - 3] == domains[i - 1]);
          StartedExactly(domains[2..], off, i - 2);
        }
      }
    } else if i >= 1 {
      assert domains[1..][i - 1] == domains[i] && (i > 1 ==> domains[1..][i - 2] == domains[i - 1]);
      StartedExactly(domains[1..], off, i - 1);
    }
  }

  /** A poll is True exactly when no listed name has "master" or "worker" in it. */
  lemma FoundByName(domains: seq<Domain>, off: set<Domain>)
    ensures !Poll(domains, off).found <==>
      forall d | d in domains :: !Occurs("master", d.name) && !Occurs("worker", d.name)
  {
    FoundIff(domains, off);
    assert forall d | d in domains :: IsNode(d) <==> d in Nodes(domains);
  }

  // ---------- polling until True ----------

  datatype History = History(left: seq<Domain>, started: seq<Domain>)

  /** Any number of polls on the one list, with any domains off at each. */
  function Polls(domains: seq<Domain>, offs: seq<set<Domain>>): History
    decreases |offs|
  {
    if offs == [] then History(domains, [])
    else
      var p := Poll(domains, offs[0]);
      var rest := Polls(p.left, offs[1..]);
      History(rest.left, p.started + rest.started)
  }

  /** One poll's starts in front of those of the later ones. */
  lemma StartedJoin(nodes: set<Domain>, between: set<Domain>, left: set<Domain>, first: seq<Domain>, later: seq<Domain>)
    requires nodes == between + Elements(first) && between !! Elements(first)
    requires between == left + Elements(later) && left !! Elements(later)
    requires Distinct(first) && Distinct(later)
    ensures Elements(first + later) == Elements(first) + Elements(later)
    ensures nodes == left + Elements(first + later) && left !! Elements(first + later)
    ensures Distinct(first + later)
  {
    forall x | x in first
      ensures x !in later
    {
      assert x in Elements(first);
      assert x in later ==> x in Elements(later);
    }
    DistinctConcat(first, later);
  }

  /** Over all polls no domain is started twice, only nodes of the original list
      are started, and the next poll returns True exactly when all of them have
      been. */
  lemma {:induction false} StartedOnceEach(domains: seq<Domain>, offs: seq<set<Domain>>, off: set<Domain>)
    requires Distinct(domains)
    ensures var h := Polls(domains, offs);
      && Distinct(h.left) && Distinct(h.started)
      && Nodes(domains) == Nodes(h.left) + Elements(h.started) && Nodes(h.left) !! Elements(h.started)
      && (!Poll(h.left, off).found <==> Elements(h.started) == Nodes(domains))
    decreases |offs|
  {
    var h := Polls(domains, offs);
    if offs != [] {
      var p := Poll(domains, offs[0]);
      var rest := Polls(p.left, offs[1..]);
      PollEffects(domains, offs[0]);
      StartedOnceEach(p.left, offs[1..], off);
      StartedJoin(Nodes(domains), Nodes(p.left), Nodes(h.left), p.started, rest.started);
    }
    FoundIff(h.left, off);
  }

  // ---------- how many polls ----------

  /** With every listed node off, a poll leaves at most half of the nodes, and
      exactly half (rounded down) when nothing but nodes is listed. */
  lemma {:induction false} PollHalves(domains: seq<Domain>, off: set<Domain>)
    requires forall d | d in domains :: IsNode(d) ==> d in off
    ensures NodeCount(Poll(domains, off).left) <= NodeCount(domains) / 2
    ensures (forall d | d in domains :: IsNode(d)) ==> NodeCount(Poll(domains, off).left) == NodeCount(domains) / 2
    decreases |domains|
  {
    if domains != [] {
      var d := domains[0];
      assert forall x | x in domains[1..] :: x in domains;
      if IsNode(d) && |domains| > 1 {
        assert domains[1..][1..] == domains[2..];
        assert forall x | x in domains[2..] :: x in domains;
        PollHalves(domains[2..], off);
        var rest := Poll(domains[2..], off);
        assert ([domains[1]] + rest.left)[1..] == rest.left;
        assert domains[1] in domains;
      } else if IsNode(d) {
        assert domains[1..] == [];
      } else {
        PollHalves(domains[1..], off);
        var rest := Poll(domains[1..], off);
        assert ([d] + rest.left)[1..] == rest.left;
      }
    }
  }

  /** Binary digits of n. */
  function Bits(n: nat): (b: nat)
    ensures b <= n
  {
    if n == 0 then 0 else 1 + Bits(n / 2)
  }

  lemma {:induction false} BitsMonotone(m: nat, n: nat)
    requires m <= n
    ensures Bits(m) <= Bits(n)
  {
    if m > 0 { BitsMonotone(m / 2, n / 2); }
  }

  lemma {:induction false} NoNodesIff(domains: seq<Domain>, off: set<Domain>)
    ensures Poll(domains, off).found <==> NodeCount(domains) > 0
    decreases |domains|
  {
    FoundIff(domains, off);
    if domains != [] {
      assert domains == [domains[0]] + domains[1..];
      NodesCons(domains[0], domains[1..]);
      NoNodesIff(domains[1..], off);
      FoundIff(domains[1..], off);
    }
  }

  /** Polls until the first True when all nodes stay off until started. */
  function PollsNeeded(domains: seq<Domain>, off: set<Domain>): nat
    requires forall d | d in domains :: IsNode(d) ==> d in off
    decreases NodeCount(domains)
  {
    if !Poll(domains, off).found then 1
    else
      NoNodesIff(domains, off);
      PollHalves(domains, off);
      LeftListed(domains, off);
      1 + PollsNeeded(Poll(domains, off).left, off)
  }

  lemma {:induction false} LeftListed(domains: seq<Domain>, off: set<Domain>)
    ensures forall d | d in Poll(domains, off).left :: d in domains
    decreases |domains|
  {
    if domains != [] {
      if IsNode(domains[0]) && domains[0] in off && |domains| > 1 {
        LeftListed(domains[2..], off);
      } else {
        LeftListed(domains[1..], off);
      }
    }
  }

  /** n nodes that all stay off until started need one poll per binary digit of
      n and one that finds none left, so at most n + 1; when only nodes are
      listed exactly that many. */
  lemma {:induction false} PollsNeededBound(domains: seq<Domain>, off: set<Domain>)
    requires forall d | d in domains :: IsNode(d) ==> d in off
    ensures PollsNeeded(domains, off) <= Bits(NodeCount(domains)) + 1 <= NodeCount(domains) + 1
    ensures (forall d | d in domains :: IsNode(d)) ==> PollsNeeded(domains, off) == Bits(NodeCount(domains)) + 1
    decreases NodeCount(domains)
  {
    NoNodesIff(domains, off);
    if Poll(domains, off).found {
      var left := Poll(domains, off).left;
      PollHalves(domains, off);
      LeftListed(domains, off);
      PollsNeededBound(left, off);
      BitsMonotone(NodeCount(left), NodeCount(domains) / 2);
    }
  }
}
