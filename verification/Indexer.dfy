/** scripts/indexer.py: unique indexes for namespaces, kept in one JSON file
    that every action loads and dumps while holding the lock. */
module Indexer {
  import opened Sequences
  import opened Text

  /** One entry of the dictionary; dictionaries keep insertion order. */
  datatype Slot = Slot(ns: string, idx: int)

  type Slots = seq<Slot>

  /** A missing file, or one that is empty or not JSON, loads as no entries. */
  datatype FileText = Missing | NotJson | Json(slots: Slots)

  function Load(text: FileText): Slots {
    if text.Json? then text.slots else []
  }

  function Lookup(d: Slots, ns: string): Option<int> {
    if d == [] then None
    else if d[0].ns == ns then Some(d[0].idx)
    else Lookup(d[1..], ns)
  }

  function Put(d: Slots, ns: string, idx: int): Slots {
    if d == [] then [Slot(ns, idx)]
    else if d[0].ns == ns then [Slot(ns, idx)] + d[1..]
    else [d[0]] + Put(d[1..], ns, idx)
  }

  function Delete(d: Slots, ns: string): Slots {
    if d == [] then []
    else if d[0].ns == ns then d[1..]
    else [d[0]] + Delete(d[1..], ns)
  }

  function Values(d: Slots): (vs: seq<int>)
    ensures |vs| == |d| && forall i | 0 <= i < |d| :: vs[i] == d[i].idx
  {
    seq(|d|, i requires 0 <= i < |d| => d[i].idx)
  }

  // ---------- sorted() ----------

  function Insert(v: int, s: seq<int>): (r: seq<int>)
    ensures |r| == |s| + 1 && multiset(r) == multiset(s) + multiset{v}
  {
    if s == [] || v <= s[0] then [v] + s
    else
      assert s == [s[0]] + s[1..];
      [s[0]] + Insert(v, s[1..])
  }

  function Sorted(vs: seq<int>): (r: seq<int>)
    ensures |r| == |vs| && multiset(r) == multiset(vs)
  {
    if vs == [] then []
    else
      assert vs == [vs[0]] + vs[1..];
      Insert(vs[0], Sorted(vs[1..]))
  }

  predicate Ascending(s: seq<int>) {
    forall i, j | 0 <= i < j < |s| :: s[i] <= s[j]
  }

  lemma InsertMembers(v: int, s: seq<int>)
    ensures forall x :: x in Insert(v, s) <==> x == v || x in s
  {
    assert forall x :: x in Insert(v, s) <==> x in multiset(Insert(v, s));
    assert forall x :: x in s <==> x in multiset(s);
  }

  lemma {:induction false} InsertAscending(v: int, s: seq<int>)
    requires Ascending(s)
    ensures Ascending(Insert(v, s))
  {
    if s != [] && v > s[0] {
      InsertAscending(v, s[1..]);
      InsertMembers(v, s[1..]);
      var rest := Insert(v, s[1..]);
      forall i | 0 <= i < |rest|
        ensures s[0] <= rest[i]
      {
        assert rest[i] in rest;
      }
    }
  }

  lemma {:induction false} SortedAscending(vs: seq<int>)
    ensures Ascending(Sorted(vs))
  {
    if vs != [] {
      SortedAscending(vs[1..]);
      InsertAscending(vs[0], Sorted(vs[1..]));
    }
  }

  lemma SortedMembers(vs: seq<int>)
    ensures forall v :: v in Sorted(vs) <==> v in vs
  {
    assert forall v :: v in Sorted(vs) <==> v in multiset(Sorted(vs));
    assert forall v :: v in vs <==> v in multiset(vs);
  }

  lemma {:induction false} InsertDistinct(v: int, s: seq<int>)
    requires Distinct(s) && v !in s
    ensures Distinct(Insert(v, s))
  {
    if s != [] {
      InsertDistinct(v, s[1..]);
      InsertMembers(v, s[1..]);
      var rest := Insert(v, s[1..]);
      forall i | 0 <= i < |rest|
        ensures rest[i] != s[0]
      {
        assert rest[i] in rest;
      }
    }
  }

  lemma {:induction false} SortedDistinct(vs: seq<int>)
    requires Distinct(vs)
    ensures Distinct(Sorted(vs))
  {
    if vs != [] {
      SortedDistinct(vs[1..]);
      SortedMembers(vs[1..]);
      assert vs[0] !in vs[1..];
      InsertDistinct(vs[0], Sorted(vs[1..]));
    }
  }

  // ---------- the first unused index ----------

  /** The scan over the sorted values from position `idx` on. */
  function Scan(sorted: seq<int>, idx: nat, maxIndexes: nat): Option<int>
    requires idx <= |sorted|
    decreases |sorted| - idx
  {
    if idx == |sorted| then if maxIndexes > idx then Some(idx) else None
    else if sorted[idx] > idx then Some(idx)
    else Scan(sorted, idx + 1, maxIndexes)
  }

  function FirstUnusedIndex(d: Slots, maxIndexes: nat): Option<int> {
    Scan(Sorted(Values(d)), 0, maxIndexes)
  }

  /** Where the scan stops. */
  lemma {:induction false} ScanStops(sorted: seq<int>, idx: nat, maxIndexes: nat)
    requires idx <= |sorted|
    ensures var r := Scan(sorted, idx, maxIndexes);
      && (r.Some? ==>
          && idx <= r.value <= |sorted|
          && (forall i: nat | idx <= i < r.value :: sorted[i] <= i)
          && (r.value < |sorted| ==> sorted[r.value] > r.value)
          && (r.value == |sorted| ==> r.value < maxIndexes))
      && (r.None? ==> |sorted| >= maxIndexes && forall i: nat | idx <= i < |sorted| :: sorted[i] <= i)
    decreases |sorted| - idx
  {
    if idx < |sorted| && sorted[idx] <= idx {
      ScanStops(sorted, idx + 1, maxIndexes);
    }
  }

  /** An index the scan hands out is unused, even in a file with repeated or
      negative values. */
  lemma FirstUnusedIsUnused(d: Slots, maxIndexes: nat)
    requires FirstUnusedIndex(d, maxIndexes).Some?
    ensures var r := FirstUnusedIndex(d, maxIndexes).value;
      0 <= r <= |d| && r !in Values(d)
  {
    var s := Sorted(Values(d));
    SortedAscending(Values(d));
    SortedMembers(Values(d));
    ScanStops(s, 0, maxIndexes);
    var r := FirstUnusedIndex(d, maxIndexes).value;
    forall i | 0 <= i < |s|
      ensures s[i] != r
    {
      if i < r { assert s[i] <= i; } else { assert s[r] <= s[i]; }
    }
  }

  /** Distinct natural numbers in ascending order climb at least one a step. */
  lemma {:induction false} ClimbsByOne(s: seq<int>, i: nat, j: nat)
    requires Ascending(s) && Distinct(s) && i <= j < |s|
    ensures s[j] - s[i] >= j - i
  {
    if i < j { ClimbsByOne(s, i, j - 1); }
  }

  ghost predicate Indexed(d: Slots, maxIndexes: nat) {
    && (forall i, j | 0 <= i < j < |d| :: d[i].ns != d[j].ns && d[i].idx != d[j].idx)
    && (forall i | 0 <= i < |d| :: 0 <= d[i].idx < maxIndexes)
  }

  /** n distinct sorted values below m leave at most m - n gaps. */
  lemma GapsBounded(s: seq<int>, m: nat)
    requires Ascending(s) && Distinct(s) && forall v | v in s :: 0 <= v < m
    ensures |s| <= m && forall i | 0 <= i < |s| :: i <= s[i] <= m - |s| + i
  {
    forall i | 0 <= i < |s|
      ensures i <= s[i] <= m - |s| + i
    {
      ClimbsByOne(s, 0, i);
      ClimbsByOne(s, i, |s| - 1);
      assert s[0] in s && s[|s| - 1] in s;
    }
    assert |s| > 0 ==> s[0] <= m - |s|;
  }

  lemma ScanIsLeast(s: seq<int>, m: nat)
    requires Ascending(s) && Distinct(s) && forall v | v in s :: 0 <= v < m
    ensures Scan(s, 0, m).None? <==> |s| == m
    ensures Scan(s, 0, m).Some? ==> 0 <= Scan(s, 0, m).value < m && forall i | 0 <= i < Scan(s, 0, m).value :: i in s
  {
    GapsBounded(s, m);
    ScanStops(s, 0, m);
    if Scan(s, 0, m).Some? {
      forall i | 0 <= i < Scan(s, 0, m).value
        ensures i in s
      {
        assert s[i] == i;
      }
    }
  }

  /** On distinct values below `maxIndexes` the scan returns the least unused
      index, and fails exactly when the pool is full. */
  lemma FirstUnusedIsLeast(d: Slots, maxIndexes: nat)
    requires Indexed(d, maxIndexes)
    ensures |d| <= maxIndexes
    ensures FirstUnusedIndex(d, maxIndexes).None? <==> |d| == maxIndexes
    ensures FirstUnusedIndex(d, maxIndexes).Some? ==>
      var r := FirstUnusedIndex(d, maxIndexes).value;
      && 0 <= r < maxIndexes && r !in Values(d)
      && forall i | 0 <= i < r :: i in Values(d)
  {
    var s := Sorted(Values(d));
    SortedAscending(Values(d));
    SortedDistinct(Values(d));
    SortedMembers(Values(d));
    GapsBounded(s, maxIndexes);
    ScanIsLeast(s, maxIndexes);
    if FirstUnusedIndex(d, maxIndexes).Some? {
      FirstUnusedIsUnused(d, maxIndexes);
    }
  }

  // ---------- actions ----------

  datatype Answer = Answer(slots: Slots, idx: Option<int>)

  /** The `set` action; no index stands for the empty answer. */
  function SetIdx(d: Slots, ns: string, maxIndexes: nat): Answer {
    match Lookup(d, ns)
    case Some(idx) => Answer(d, Some(idx))
    case None =>
      match FirstUnusedIndex(d, maxIndexes)
      case None => Answer(d, None)
      case Some(idx) =>
        if |d| > maxIndexes then Answer(d, None) else Answer(Put(d, ns, idx), Some(idx))
  }

  function DelIdx(d: Slots, ns: string): Slots {
    if ns == "all" then [] else Delete(d, ns)
  }

  datatype Action = SetNs(ns: string) | GetNs(ns: string) | DelNs(ns: string) | ListNs

  /** One action as a lock-protected step on the file. */
  function Act(text: FileText, a: Action, maxIndexes: nat): FileText {
    match a
    case SetNs(ns) => Json(SetIdx(Load(text), ns, maxIndexes).slots)
    case GetNs(_) => Json(Load(text))
    case DelNs(ns) => Json(DelIdx(Load(text), ns))
    case ListNs => Json(Load(text))
  }

  function ActAll(text: FileText, acts: seq<Action>, maxIndexes: nat): FileText
    decreases |acts|
  {
    if acts == [] then text else ActAll(Act(text, acts[0], maxIndexes), acts[1..], maxIndexes)
  }

  /** Writing an entry, new or not, changes the answer for its namespace only. */
  lemma {:induction false} PutLookup(d: Slots, ns: string, idx: int, m: string)
    ensures Lookup(Put(d, ns, idx), m) == if m == ns then Some(idx) else Lookup(d, m)
  {
    if d != [] && d[0].ns != ns {
      PutLookup(d[1..], ns, idx, m);
      var rest := Put(d[1..], ns, idx);
      assert ([d[0]] + rest)[1..] == rest;
    } else if d != [] {
      assert ([Slot(ns, idx)] + d[1..])[1..] == d[1..];
    }
  }

  class IndexFile {
    var text: FileText

    constructor (text: FileText)
      ensures this.text == text
    {
      this.text := text;
    }
  }

  class IndexProvider {
    const file: IndexFile
    const maxIndexes: nat
    var inContext: bool
    var nsToIdx: Slots

    constructor (file: IndexFile, maxIndexes: nat)
      ensures this.file == file && this.maxIndexes == maxIndexes && !inContext && nsToIdx == []
    {
      this.file, this.maxIndexes, inContext, nsToIdx := file, maxIndexes, false, [];
    }

    /** __enter__: a missing file is created empty before it is read. */
    method Enter()
      requires !inContext
      modifies this, file
      ensures inContext && nsToIdx == Load(old(file.text))
    {
      inContext := true;
      if file.text.Missing? {
        file.text := NotJson;
        nsToIdx := [];
      } else if file.text.Json? {
        nsToIdx := file.text.slots;
      } else {
        nsToIdx := [];
      }
    }

    /** __exit__: when the body raised, the file stays as it is. */
    method Exit(raised: bool)
      requires inContext
      modifies this, file
      ensures !inContext && nsToIdx == []
      ensures file.text == if raised then old(file.text) else Json(old(nsToIdx))
    {
      if !raised {
        file.text := Json(nsToIdx);
      }
      nsToIdx := [];
      inContext := false;
    }

    method SetIndex(ns: string, idx: int) returns (done: bool)
      modifies this`nsToIdx
      ensures done == (inContext && |old(nsToIdx)| <= maxIndexes)
      ensures nsToIdx == if done then Put(old(nsToIdx), ns, idx) else old(nsToIdx)
      ensures done ==> Lookup(nsToIdx, ns) == Some(idx)
    {
      PutLookup(nsToIdx, ns, idx, ns);
      if !inContext {
        return false;
      } else if |nsToIdx| > maxIndexes {
        return false;
      }
      nsToIdx := Put(nsToIdx, ns, idx);
      return true;
    }

    /** The answer is the truth value of the removed index: deleting a namespace
        with index 0 reports false. */
    method DelIndex(ns: string) returns (removed: bool)
      modifies this`nsToIdx
      ensures nsToIdx == Delete(old(nsToIdx), ns)
      ensures removed <==> Lookup(old(nsToIdx), ns).Some? && Lookup(old(nsToIdx), ns) != Some(0)
    {
      var idx := Lookup(nsToIdx, ns);
      nsToIdx := Delete(nsToIdx, ns);
      return idx.Some? && idx.value != 0;
    }

    method FindFirstUnusedIndex() returns (r: Option<int>)
      ensures r == FirstUnusedIndex(nsToIdx, maxIndexes)
    {
      var sorted := Sorted(Values(nsToIdx));
      var idx := 0;
      while idx < |sorted|
        invariant 0 <= idx <= |sorted|
        invariant Scan(sorted, idx, maxIndexes) == Scan(sorted, 0, maxIndexes)
      {
        if sorted[idx] > idx {
          return Some(idx);
        }
        idx := idx + 1;
      }
      return if maxIndexes > idx then Some(idx) else None;
    }
  }

  method RunSetIdx(p: IndexProvider, ns: string) returns (idx: Option<int>)
    requires !p.inContext
    modifies p, p.file
    ensures !p.inContext && p.file.text == Act(old(p.file.text), SetNs(ns), p.maxIndexes)
    ensures idx == SetIdx(Load(old(p.file.text)), ns, p.maxIndexes).idx
  {
    p.Enter();
    idx := Lookup(p.nsToIdx, ns);
    if idx.None? {
      idx := p.FindFirstUnusedIndex();
      if idx.Some? {
        var done := p.SetIndex(ns, idx.value);
        if !done {
          idx := None;
        }
      }
    }
    p.Exit(false);
  }

  method RunDelIdx(p: IndexProvider, ns: string)
    requires !p.inContext
    modifies p, p.file
    ensures !p.inContext && p.file.text == Act(old(p.file.text), DelNs(ns), p.maxIndexes)
    ensures ns == "all" ==> Load(p.file.text) == []
  {
    p.Enter();
    if ns == "all" {
      p.nsToIdx := [];
    } else {
      var _ := p.DelIndex(ns);
    }
    p.Exit(false);
  }

  /** None stands for the message on stderr and exit status 1. */
  method RunGetIdx(p: IndexProvider, ns: string) returns (idx: Option<int>)
    requires !p.inContext
    modifies p, p.file
    ensures !p.inContext && p.file.text == Act(old(p.file.text), GetNs(ns), p.maxIndexes)
    ensures idx == Lookup(Load(old(p.file.text)), ns)
  {
    p.Enter();
    idx := Lookup(p.nsToIdx, ns);
    p.Exit(false);
  }

  // ---------- dictionary facts ----------

  lemma {:induction false} LookupIs(d: Slots, ns: string)
    ensures Lookup(d, ns).None? ==> forall i | 0 <= i < |d| :: d[i].ns != ns
    ensures Lookup(d, ns).Some? ==> Slot(ns, Lookup(d, ns).value) in d
  {
    if d != [] { LookupIs(d[1..], ns); }
  }

  lemma {:induction false} PutAbsent(d: Slots, ns: string, idx: int)
    requires Lookup(d, ns).None?
    ensures Put(d, ns, idx) == d + [Slot(ns, idx)]
  {
    if d != [] { PutAbsent(d[1..], ns, idx); }
  }

  lemma {:induction false} LookupAppend(d: Slots, s: Slot, ns: string)
    ensures Lookup(d + [s], ns) == if Lookup(d, ns).Some? then Lookup(d, ns) else if s.ns == ns then Some(s.idx) else None
  {
    if d == [] {
      assert d + [s] == [s];
    } else {
      assert (d + [s])[1..] == d[1..] + [s];
      LookupAppend(d[1..], s, ns);
    }
  }

  predicate DistinctNames(d: Slots) {
    forall i, j | 0 <= i < j < |d| :: d[i].ns != d[j].ns
  }

  lemma {:induction false} DeleteMembers(d: Slots, ns: string)
    requires DistinctNames(d)
    ensures forall s :: s in Delete(d, ns) <==> s in d && s.ns != ns
  {
    if d != [] {
      DeleteMembers(d[1..], ns);
      assert forall s :: s in d <==> s == d[0] || s in d[1..];
      assert forall i | 0 <= i < |d[1..]| :: d[1..][i].ns != d[0].ns;
    }
  }

  lemma {:induction false} DeleteLookup(d: Slots, ns: string, m: string)
    requires m != ns
    ensures Lookup(Delete(d, ns), m) == Lookup(d, m)
  {
    if d != [] && d[0].ns != ns {
      DeleteLookup(d[1..], ns, m);
      var rest := Delete(d[1..], ns);
      assert ([d[0]] + rest)[1..] == rest;
    }
  }

  lemma PrependIndexed(s: Slot, rest: Slots, maxIndexes: nat)
    requires Indexed(rest, maxIndexes) && 0 <= s.idx < maxIndexes
    requires forall x | x in rest :: x.ns != s.ns && x.idx != s.idx
    ensures Indexed([s] + rest, maxIndexes)
  {
    assert forall i | 0 <= i < |rest| :: rest[i] in rest;
  }

  lemma TailIndexed(d: Slots, maxIndexes: nat)
    requires d != [] && Indexed(d, maxIndexes)
    ensures Indexed(d[1..], maxIndexes) && DistinctNames(d[1..])
    ensures forall x | x in d[1..] :: x.ns != d[0].ns && x.idx != d[0].idx
  {
  }

  lemma {:induction false} DeleteIndexed(d: Slots, ns: string, maxIndexes: nat)
    requires Indexed(d, maxIndexes)
    ensures Indexed(Delete(d, ns), maxIndexes)
  {
    if d != [] {
      TailIndexed(d, maxIndexes);
      if d[0].ns != ns {
        DeleteIndexed(d[1..], ns, maxIndexes);
        DeleteMembers(d[1..], ns);
        PrependIndexed(d[0], Delete(d[1..], ns), maxIndexes);
      }
    }
  }

  lemma DeleteIs(d: Slots, ns: string, maxIndexes: nat)
    requires Indexed(d, maxIndexes)
    ensures Indexed(Delete(d, ns), maxIndexes)
    ensures forall m | m != ns :: Lookup(Delete(d, ns), m) == Lookup(d, m)
  {
    DeleteIndexed(d, ns, maxIndexes);
    forall m | m != ns {
      DeleteLookup(d, ns, m);
    }
  }

  // ---------- every reachable file ----------

  /** The empty answer comes exactly when the namespace is new and the pool is
      full; otherwise the namespace holds the index reported, a new one the
      least unused. Everybody else keeps theirs, and the looser guard of
      `set_index` never fires. */
  lemma SetIdxAnswers(d: Slots, ns: string, maxIndexes: nat)
    requires Indexed(d, maxIndexes)
    ensures var a := SetIdx(d, ns, maxIndexes);
      && Indexed(a.slots, maxIndexes)
      && (a.idx.None? <==> Lookup(d, ns).None? && |d| == maxIndexes)
      && Lookup(a.slots, ns) == a.idx
      && (forall m | m != ns :: Lookup(a.slots, m) == Lookup(d, m))
      && (Lookup(d, ns).Some? ==> a.idx == Lookup(d, ns) && a.slots == d)
      && (Lookup(d, ns).None? && a.idx.Some? ==>
          a.idx.value !in Values(d) && forall i | 0 <= i < a.idx.value :: i in Values(d))
  {
    FirstUnusedIsLeast(d, maxIndexes);
    LookupIs(d, ns);
    var a := SetIdx(d, ns, maxIndexes);
    if Lookup(d, ns).None? && a.idx.Some? {
      PutAbsent(d, ns, a.idx.value);
      forall m {
        LookupAppend(d, Slot(ns, a.idx.value), m);
      }
      forall i | 0 <= i < |d|
        ensures d[i].idx != a.idx.value
      {
        assert Values(d)[i] in Values(d);
      }
    }
  }

  lemma ActKeepsIndexed(text: FileText, a: Action, maxIndexes: nat)
    requires Indexed(Load(text), maxIndexes)
    ensures Indexed(Load(Act(text, a, maxIndexes)), maxIndexes)
  {
    match a
    case SetNs(ns) => SetIdxAnswers(Load(text), ns, maxIndexes);
    case DelNs(ns) => DeleteIs(Load(text), ns, maxIndexes);
    case _ =>
  }

  /** In every reachable file the namespaces hold distinct indexes in
      [0, maxIndexes), and at most maxIndexes of them exist. */
  lemma {:induction false} EveryRunKeepsIndexed(text: FileText, acts: seq<Action>, maxIndexes: nat)
    requires Indexed(Load(text), maxIndexes)
    ensures var d := Load(ActAll(text, acts, maxIndexes));
      Indexed(d, maxIndexes) && |d| <= maxIndexes
    decreases |acts|
  {
    if acts == [] {
      FirstUnusedIsLeast(Load(text), maxIndexes);
    } else {
      ActKeepsIndexed(text, acts[0], maxIndexes);
      EveryRunKeepsIndexed(Act(text, acts[0], maxIndexes), acts[1..], maxIndexes);
    }
  }

  /** A namespace keeps its index until somebody deletes it or all of them. */
  lemma {:induction false} IndexIsStable(text: FileText, acts: seq<Action>, maxIndexes: nat, ns: string)
    requires Indexed(Load(text), maxIndexes) && Lookup(Load(text), ns).Some?
    requires DelNs(ns) !in acts && DelNs("all") !in acts
    ensures Lookup(Load(ActAll(text, acts, maxIndexes)), ns) == Lookup(Load(text), ns)
    decreases |acts|
  {
    if acts != [] {
      var next := Act(text, acts[0], maxIndexes);
      assert acts[0] in acts;
      ActKeepsIndexed(text, acts[0], maxIndexes);
      match acts[0] {
        case SetNs(m) => SetIdxAnswers(Load(text), m, maxIndexes);
        case DelNs(m) => DeleteIs(Load(text), m, maxIndexes);
        case _ =>
      }
      IndexIsStable(next, acts[1..], maxIndexes, ns);
    }
  }

  // ---------- deletions ----------

  /** After `del all` no namespace has an index, and the next one to ask gets 0,
      if there is room for any. */
  lemma DelAllEmpties(text: FileText, maxIndexes: nat, ns: string)
    ensures var after := Act(text, DelNs("all"), maxIndexes);
      && (forall m :: Lookup(Load(after), m).None?)
      && Lookup(Load(Act(after, SetNs(ns), maxIndexes)), ns) == (if maxIndexes > 0 then Some(0) else None)
      && SetIdx(Load(after), ns, maxIndexes).idx == (if maxIndexes > 0 then Some(0) else None)
  {
    var after := Act(text, DelNs("all"), maxIndexes);
    SetIdxAnswers(Load(after), ns, maxIndexes);
    FirstUnusedIsLeast(Load(after), maxIndexes);
    assert Values([]) == [];
  }

  /** Deleting one namespace takes its index and nobody else's. The freed index
      is unused, so a new namespace gets it or a smaller one. */
  lemma DelFreesIndex(text: FileText, maxIndexes: nat, ns: string, other: string)
    requires ns != "all" && Indexed(Load(text), maxIndexes)
    ensures var after := Act(text, DelNs(ns), maxIndexes);
      && Indexed(Load(after), maxIndexes)
      && Lookup(Load(after), ns).None?
      && (forall m | m != ns :: Lookup(Load(after), m) == Lookup(Load(text), m))
      && (Lookup(Load(text), ns).Some? && Lookup(Load(after), other).None? ==>
          && Lookup(Load(text), ns).value !in Values(Load(after))
          && SetIdx(Load(after), other, maxIndexes).idx.Some?
          && SetIdx(Load(after), other, maxIndexes).idx.value <= Lookup(Load(text), ns).value)
  {
    var d := Load(text);
    var after := Load(Act(text, DelNs(ns), maxIndexes));
    DeleteIs(d, ns, maxIndexes);
    DeleteMembers(d, ns);
    LookupIs(d, ns);
    LookupIs(after, ns);
    if Lookup(d, ns).Some? {
      FreedIsUnused(d, after, Slot(ns, Lookup(d, ns).value), maxIndexes);
      SetIdxAnswers(after, other, maxIndexes);
      FirstUnusedIsLeast(after, maxIndexes);
    }
  }

  lemma FreedIsUnused(d: Slots, after: Slots, gone: Slot, maxIndexes: nat)
    requires Indexed(d, maxIndexes) && Indexed(after, maxIndexes) && gone in d
    requires forall s :: s in after <==> s in d && s.ns != gone.ns
    ensures gone.idx !in Values(after)
    ensures |after| < maxIndexes
  {
    var k :| 0 <= k < |d| && d[k] == gone;
    forall i | 0 <= i < |after|
      ensures after[i].idx != gone.idx
    {
      assert after[i] in d;
      var j :| 0 <= j < |d| && d[j] == after[i];
    }
    FirstUnusedIsLeast(after, maxIndexes);
    if |after| == maxIndexes {
      FullUsesAll(after, maxIndexes, gone.idx);
    }
  }

  /** A full pool uses every index. */
  lemma FullUsesAll(d: Slots, maxIndexes: nat, idx: int)
    requires Indexed(d, maxIndexes) && |d| == maxIndexes && 0 <= idx < maxIndexes
    ensures idx in Values(d)
  {
    var s := Sorted(Values(d));
    SortedAscending(Values(d));
    SortedDistinct(Values(d));
    SortedMembers(Values(d));
    GapsBounded(s, maxIndexes);
    assert s[idx] == idx;
  }

  /** The guard of `set_index` on a file of any positive values: a new namespace
      gets 0 as long as there are at most maxIndexes entries. */
  lemma ZeroIsGivenIff(d: Slots, ns: string, maxIndexes: nat)
    requires d != [] && Lookup(d, ns).None? && forall v | v in Values(d) :: v > 0
    ensures SetIdx(d, ns, maxIndexes).idx == if |d| <= maxIndexes then Some(0) else None
  {
    SortedMembers(Values(d));
    var s := Sorted(Values(d));
    assert s[0] in s;
  }
}
