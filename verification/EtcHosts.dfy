/** The in-place updater of /etc/hosts: names replace the first line they occur
    in, names that occur in no line are appended. */
module EtcHosts {
  import opened Sequences
  import opened Text

  datatype Record = Record(name: string, ip: string)

  /** The DNS map in insertion order. */
  type Records = seq<Record>

  predicate DistinctNames(dns: Records) {
    forall i, j | 0 <= i < j < |dns| :: dns[i].name != dns[j].name
  }

  function Line(r: Record): string {
    r.ip + " " + r.name + "\n"
  }

  function Lines(dns: Records): seq<string> {
    if dns == [] then [] else [Line(dns[0])] + Lines(dns[1..])
  }

  /** The first record, in map order, whose name occurs in the line; |dns| when
      there is none. */
  function Pick(line: string, dns: Records): (i: nat)
    ensures i <= |dns|
  {
    if dns == [] || Occurs(dns[0].name, line) then 0 else 1 + Pick(line, dns[1..])
  }

  lemma {:induction false} PickIs(line: string, dns: Records)
    ensures var i := Pick(line, dns);
      && (i < |dns| ==> Occurs(dns[i].name, line))
      && forall j | 0 <= j < i :: !Occurs(dns[j].name, line)
  {
    if dns != [] { PickIs(line, dns[1..]); }
  }

  lemma PickUnique(line: string, dns: Records, k: nat)
    requires k <= |dns| && (k < |dns| ==> Occurs(dns[k].name, line))
    requires forall j | 0 <= j < k :: !Occurs(dns[j].name, line)
    ensures Pick(line, dns) == k
  {
    PickIs(line, dns);
  }

  function Remove(dns: Records, i: nat): Records
    requires i < |dns|
  {
    dns[..i] + dns[i + 1..]
  }

  datatype Step = Step(line: string, left: Records)

  /** What the loop makes of one line. */
  function Next(line: string, dns: Records): Step {
    var i := Pick(line, dns);
    if i == |dns| then Step(line, dns) else Step(Line(dns[i]), Remove(dns, i))
  }

  datatype Swept = Swept(lines: seq<string>, left: Records)

  /** The loop over the existing lines. */
  function Sweep(lines: seq<string>, dns: Records): (s: Swept)
    ensures |s.lines| == |lines|
    decreases |lines|
  {
    if lines == [] then Swept([], dns)
    else
      var next := Next(lines[0], dns);
      var rest := Sweep(lines[1..], next.left);
      Swept([next.line] + rest.lines, rest.left)
  }

  function Update(lines: seq<string>, dns: Records): seq<string> {
    var s := Sweep(lines, dns);
    s.lines + Lines(s.left)
  }

  lemma {:induction false} SweepConcat(xs: seq<string>, ys: seq<string>, dns: Records)
    ensures var s := Sweep(xs, dns);
      var t := Sweep(ys, s.left);
      Sweep(xs + ys, dns) == Swept(s.lines + t.lines, t.left)
    decreases |xs|
  {
    if xs == [] {
      assert xs + ys == ys;
    } else {
      assert (xs + ys)[0] == xs[0] && (xs + ys)[1..] == xs[1..] + ys;
      var next := Next(xs[0], dns);
      SweepConcat(xs[1..], ys, next.left);
      var s := Sweep(xs[1..], next.left);
      var t := Sweep(ys, s.left);
      assert [next.line] + (s.lines + t.lines) == [next.line] + s.lines + t.lines;
    }
  }

  // ---------- what an update does ----------

  lemma {:induction false} LinesAt(dns: Records)
    ensures |Lines(dns)| == |dns|
    ensures forall i | 0 <= i < |dns| :: Lines(dns)[i] == Line(dns[i])
  {
    if dns != [] { LinesAt(dns[1..]); }
  }

  lemma {:induction false} SweepEffects(lines: seq<string>, dns: Records)
    ensures var s := Sweep(lines, dns);
      && (forall r | r in dns :: r in s.left || Line(r) in s.lines)
      && (forall r | r in s.left :: r in dns)
      && (forall i | 0 <= i < |lines| && s.lines[i] != lines[i] ::
          exists r | r in dns :: Occurs(r.name, lines[i]) && s.lines[i] == Line(r))
    decreases |lines|
  {
    if lines != [] {
      var i := Pick(lines[0], dns);
      var next := Next(lines[0], dns).left;
      PickIs(lines[0], dns);
      SweepEffects(lines[1..], next);
      var s := Sweep(lines, dns);
      var rest := Sweep(lines[1..], next);
      assert s.lines[1..] == rest.lines;
      assert i < |dns| ==> forall r :: r in dns <==> r == dns[i] || r in next;
      forall k | 0 <= k < |lines| && s.lines[k] != lines[k]
        ensures exists r | r in dns :: Occurs(r.name, lines[k]) && s.lines[k] == Line(r)
      {
        if k > 0 { assert lines[1..][k - 1] == lines[k] && rest.lines[k - 1] == s.lines[k]; }
      }
    }
  }

  /** Afterwards each name has its exact line, a line changes only into the line
      of a name it contained, and one line is added per name without a match. */
  lemma UpdateEffects(lines: seq<string>, dns: Records)
    ensures var u := Update(lines, dns);
      && |u| == |lines| + |Sweep(lines, dns).left|
      && (forall r | r in dns :: Line(r) in u)
      && (forall i | 0 <= i < |lines| && (forall r | r in dns :: !Occurs(r.name, lines[i])) :: u[i] == lines[i])
      && (forall i | 0 <= i < |lines| && u[i] != lines[i] ::
          exists r | r in dns :: Occurs(r.name, lines[i]) && u[i] == Line(r))
      && (forall i | |lines| <= i < |u| :: exists r | r in dns :: u[i] == Line(r))
  {
    var s := Sweep(lines, dns);
    SweepEffects(lines, dns);
    LinesAt(s.left);
    forall r | r in s.left
      ensures Line(r) in Lines(s.left)
    {
      var i :| 0 <= i < |s.left| && s.left[i] == r;
      assert Lines(s.left)[i] == Line(r);
    }
    forall i | |lines| <= i < |Update(lines, dns)|
      ensures exists r | r in dns :: Update(lines, dns)[i] == Line(r)
    {
      assert s.left[i - |lines|] in s.left;
    }
  }

  lemma {:induction false} NothingHit(lines: seq<string>, dns: Records)
    requires forall i, r | 0 <= i < |lines| && r in dns :: !Occurs(r.name, lines[i])
    ensures Sweep(lines, dns) == Swept(lines, dns)
    decreases |lines|
  {
    if lines != [] {
      PickIs(lines[0], dns);
      assert forall k | 0 <= k < |lines[1..]| :: lines[1..][k] == lines[k + 1];
      NothingHit(lines[1..], dns);
    }
  }

  /** The first line any name occurs in becomes the line of the first such name in
      map order; lines before it stay, and those behind it are updated for the
      other names. */
  lemma FirstHit(lines: seq<string>, dns: Records, i: nat, k: nat)
    requires i < |lines| && k < |dns|
    requires forall j, r | 0 <= j < i && r in dns :: !Occurs(r.name, lines[j])
    requires Occurs(dns[k].name, lines[i]) && forall m | 0 <= m < k :: !Occurs(dns[m].name, lines[i])
    ensures Update(lines, dns) ==
      lines[..i] + ([dns[k].ip + " " + dns[k].name + "\n"] + Update(lines[i + 1..], dns[..k] + dns[k + 1..]))
    ensures Sweep(lines, dns).left == Sweep(lines[i + 1..], dns[..k] + dns[k + 1..]).left
  {
    var rest := Sweep(lines[i + 1..], Remove(dns, k));
    assert lines == lines[..i] + lines[i..];
    SweepConcat(lines[..i], lines[i..], dns);
    NothingHit(lines[..i], dns);
    PickUnique(lines[i], dns, k);
    assert lines[i..][0] == lines[i] && lines[i..][1..] == lines[i + 1..];
    ConcatAssoc(lines[..i], [Line(dns[k])] + rest.lines, Lines(rest.left));
    ConcatAssoc([Line(dns[k])], rest.lines, Lines(rest.left));
  }

  /** Names that occur nowhere are appended, in map order. */
  lemma NoHit(lines: seq<string>, dns: Records)
    requires forall i, r | 0 <= i < |lines| && r in dns :: !Occurs(r.name, lines[i])
    ensures var u := Update(lines, dns);
      && |u| == |lines| + |dns| && u[..|lines|] == lines
      && forall m | 0 <= m < |dns| :: u[|lines| + m] == dns[m].ip + " " + dns[m].name + "\n"
    ensures Sweep(lines, dns).left == dns
  {
    NothingHit(lines, dns);
    LinesAt(dns);
  }

  // ---------- updating twice ----------

  /** A name earlier in the map occurs in a later name's line only inside that
      name itself, not in its address or across the blank. */
  ghost predicate Harmless(dns: Records) {
    forall i, j | 0 <= i < j < |dns| && Occurs(dns[i].name, Line(dns[j])) :: Occurs(dns[i].name, dns[j].name)
  }

  lemma HarmlessRemove(dns: Records, k: nat)
    requires Harmless(dns) && k < |dns|
    ensures Harmless(Remove(dns, k))
  {
    var rest := Remove(dns, k);
    forall i, j | 0 <= i < j < |rest| && Occurs(rest[i].name, Line(rest[j]))
      ensures Occurs(rest[i].name, rest[j].name)
    {
      var p := if i < k then i else i + 1;
      var q := if j < k then j else j + 1;
      assert rest[i] == dns[p] && rest[j] == dns[q] && p < q;
    }
  }

  lemma OwnLine(r: Record)
    ensures Occurs(r.name, Line(r))
  {
    OccursInConcat(r.name, r.ip + " ", "\n");
  }

  /** A written line picks the record it was written for again. */
  lemma PickAgain(line: string, dns: Records)
    requires Harmless(dns) && Pick(line, dns) < |dns|
    ensures Pick(Line(dns[Pick(line, dns)]), dns) == Pick(line, dns)
  {
    var i := Pick(line, dns);
    PickIs(line, dns);
    OwnLine(dns[i]);
    forall j | 0 <= j < i
      ensures !Occurs(dns[j].name, Line(dns[i]))
    {
      if Occurs(dns[j].name, Line(dns[i])) {
        OccursTransitive(dns[j].name, dns[i].name, line);
      }
    }
    PickUnique(Line(dns[i]), dns, i);
  }

  lemma {:induction false} SweepAgain(lines: seq<string>, dns: Records)
    requires Harmless(dns)
    ensures Sweep(Sweep(lines, dns).lines, dns) == Sweep(lines, dns)
    decreases |lines|
  {
    if lines != [] {
      var i := Pick(lines[0], dns);
      var next := Next(lines[0], dns).left;
      var s := Sweep(lines, dns);
      assert s.lines[1..] == Sweep(lines[1..], next).lines;
      if i < |dns| {
        PickAgain(lines[0], dns);
        HarmlessRemove(dns, i);
      }
      SweepAgain(lines[1..], next);
    }
  }

  /** Appended lines are taken by their own records, in order. */
  lemma {:induction false} SweepAppended(dns: Records)
    ensures Sweep(Lines(dns), dns) == Swept(Lines(dns), [])
    decreases |dns|
  {
    if dns != [] {
      OwnLine(dns[0]);
      assert Pick(Line(dns[0]), dns) == 0;
      assert Remove(dns, 0) == dns[1..];
      assert Lines(dns)[1..] == Lines(dns[1..]);
      SweepAppended(dns[1..]);
    }
  }

  lemma UpdateAgain(lines: seq<string>, dns: Records)
    requires Harmless(dns)
    ensures Update(Update(lines, dns), dns) == Update(lines, dns)
  {
    var s := Sweep(lines, dns);
    SweepAgain(lines, dns);
    SweepAppended(s.left);
    SweepConcat(s.lines, Lines(s.left), dns);
    assert s.lines + Lines(s.left) + [] == s.lines + Lines(s.left);
  }

  // ---------- and when it is not idempotent ----------

  /** The lines that expose a pair of records standing in each other's way:
      the later name, after the shorter names inside it are out of the way. */
  ghost function Exposing(dns: Records, i: nat, j: nat): seq<string>
    requires i < j < |dns|
    decreases |dns|
  {
    var k := Pick(dns[j].name, dns);
    if k < j && k != i then
      [dns[k].name] + Exposing(Remove(dns, k), if k < i then i - 1 else i, j - 1)
    else [dns[j].name]
  }

  function AfterLastBlank(s: string): string {
    if s == "" || s[|s| - 1] == ' ' then "" else AfterLastBlank(s[..|s| - 1]) + [s[|s| - 1]]
  }

  lemma {:induction false} AfterLastBlankOf(pre: string, name: string)
    requires ' ' !in name && pre != "" && pre[|pre| - 1] == ' '
    ensures AfterLastBlank(pre + name) == name
  {
    if name == "" {
      assert pre + name == pre;
    } else {
      assert (pre + name)[..|pre + name| - 1] == pre + name[..|name| - 1];
      AfterLastBlankOf(pre, name[..|name| - 1]);
    }
  }

  lemma SameLineSameName(a: Record, b: Record)
    requires ' ' !in a.name && ' ' !in b.name && Line(a) == Line(b)
    ensures a.name == b.name
  {
    AfterLastBlankOf(a.ip + " ", a.name);
    AfterLastBlankOf(b.ip + " ", b.name);
    assert Line(a)[..|Line(a)| - 1] == a.ip + " " + a.name;
    assert Line(b)[..|Line(b)| - 1] == b.ip + " " + b.name;
  }

  ghost predicate PlainNames(dns: Records) {
    DistinctNames(dns) && forall r | r in dns :: ' ' !in r.name
  }

  lemma RemoveIndex(dns: Records, k: nat, i: nat)
    requires k < |dns| && i < |dns| && i != k
    ensures Remove(dns, k)[if k < i then i - 1 else i] == dns[i]
  {
  }

  lemma PlainRemove(dns: Records, k: nat)
    requires PlainNames(dns) && k < |dns|
    ensures PlainNames(Remove(dns, k))
  {
    var rest := Remove(dns, k);
    forall i, j | 0 <= i < j < |rest|
      ensures rest[i].name != rest[j].name
    {
      var p := if i < k then i else i + 1;
      var q := if j < k then j else j + 1;
      assert rest[i] == dns[p] && rest[j] == dns[q] && p < q;
    }
  }

  /** Another record than the one written for changes the line. */
  lemma OtherPickChanges(dns: Records, k: nat)
    requires PlainNames(dns) && k < |dns|
    ensures var p := Pick(Line(dns[k]), dns);
      p < |dns| && (p != k ==> Line(dns[p]) != Line(dns[k]))
  {
    OwnLine(dns[k]);
    PickIs(Line(dns[k]), dns);
    var p := Pick(Line(dns[k]), dns);
    if p != k && Line(dns[p]) == Line(dns[k]) {
      SameLineSameName(dns[p], dns[k]);
    }
  }

  lemma {:induction false} ExposingChanges(dns: Records, i: nat, j: nat, tail: seq<string>)
    requires PlainNames(dns) && i < j < |dns|
    requires Occurs(dns[i].name, Line(dns[j])) && !Occurs(dns[i].name, dns[j].name)
    ensures Changes(Exposing(dns, i, j), dns, tail)
    decreases |dns|
  {
    var k := Pick(dns[j].name, dns);
    assert OccursAt(dns[j].name, dns[j].name, 0);
    PickIs(dns[j].name, dns);
    assert k <= j && k != i;
    PicksItself(dns, j, k);
    if k < j {
      var rest := Remove(dns, k);
      var i' := if k < i then i - 1 else i;
      RemoveIndex(dns, k, i);
      RemoveIndex(dns, k, j);
      PlainRemove(dns, k);
      ExposingChanges(rest, i', j - 1, tail);
      ChangesLater(dns, k, Exposing(rest, i', j - 1), tail);
    } else {
      PickIs(Line(dns[j]), dns);
      ChangesFirst(dns, j, tail);
    }
  }

  /** After sweeping `lines`, sweeping what came out with `tail` behind it
      changes a line. */
  ghost predicate Changes(lines: seq<string>, dns: Records, tail: seq<string>) {
    var out := Sweep(lines, dns).lines;
    Sweep(out + tail, dns).lines != out + tail
  }

  lemma ChangesLater(dns: Records, k: nat, lines: seq<string>, tail: seq<string>)
    requires PlainNames(dns) && k < |dns| && Pick(dns[k].name, dns) == k
    requires Changes(lines, Remove(dns, k), tail)
    ensures Changes([dns[k].name] + lines, dns, tail)
  {
    var more := Sweep(lines, Remove(dns, k)).lines;
    SweepFirst(dns[k].name, lines, dns);
    assert Next(dns[k].name, dns) == Step(Line(dns[k]), Remove(dns, k));
    ConcatAssoc([Line(dns[k])], more, tail);
    ChangedLater(dns, k, more + tail);
  }

  lemma ChangesFirst(dns: Records, j: nat, tail: seq<string>)
    requires PlainNames(dns) && j < |dns| && Pick(dns[j].name, dns) == j
    requires Pick(Line(dns[j]), dns) < j
    ensures Changes([dns[j].name], dns, tail)
  {
    var out := Sweep([dns[j].name], dns).lines;
    SweepFirst(dns[j].name, [], dns);
    assert [dns[j].name] + [] == [dns[j].name];
    OtherPickChanges(dns, j);
    ChangedFirst(out + tail, dns, j);
  }

  lemma SweepFirst(line: string, rest: seq<string>, dns: Records)
    ensures Sweep([line] + rest, dns).lines ==
      [Next(line, dns).line] + Sweep(rest, Next(line, dns).left).lines
  {
    assert ([line] + rest)[1..] == rest;
  }

  lemma ChangedFirst(lines: seq<string>, dns: Records, k: nat)
    requires lines != [] && k < |dns| && lines[0] == Line(dns[k])
    requires var p := Pick(lines[0], dns); p < |dns| && Line(dns[p]) != Line(dns[k])
    ensures Sweep(lines, dns).lines != lines
  {
    assert Sweep(lines, dns).lines[0] == Line(dns[Pick(lines[0], dns)]);
  }

  lemma PicksItself(dns: Records, j: nat, k: nat)
    requires j < |dns| && k < |dns| && k == Pick(dns[j].name, dns)
    ensures Pick(dns[k].name, dns) == k
  {
    assert OccursAt(dns[k].name, dns[k].name, 0);
    PickIs(dns[j].name, dns);
    forall p | 0 <= p < k
      ensures !Occurs(dns[p].name, dns[k].name)
    {
      if Occurs(dns[p].name, dns[k].name) {
        OccursTransitive(dns[p].name, dns[k].name, dns[j].name);
      }
    }
    PickUnique(dns[k].name, dns, k);
  }

  lemma ChangedLater(dns: Records, k: nat, more: seq<string>)
    requires PlainNames(dns) && k < |dns|
    requires Sweep(more, Remove(dns, k)).lines != more
    ensures Sweep([Line(dns[k])] + more, dns).lines != [Line(dns[k])] + more
  {
    var all := [Line(dns[k])] + more;
    OtherPickChanges(dns, k);
    SweepFirst(Line(dns[k]), more, dns);
    var s := Sweep(all, dns);
    if Pick(Line(dns[k]), dns) == k {
      assert s.lines[1..] == Sweep(more, Remove(dns, k)).lines;
      assert all[1..] == more;
    } else {
      ChangedFirst(all, dns, k);
    }
  }

  /** For names without blanks: updating twice is updating once for every hosts
      file exactly when no name stands in another one's line other than inside
      that name. Names may be substrings of each other. */
  lemma IdempotentIff(dns: Records)
    requires PlainNames(dns)
    ensures (forall lines :: Update(Update(lines, dns), dns) == Update(lines, dns)) <==> Harmless(dns)
  {
    if Harmless(dns) {
      forall lines {
        UpdateAgain(lines, dns);
      }
    } else {
      var i, j :| 0 <= i < j < |dns| && Occurs(dns[i].name, Line(dns[j])) && !Occurs(dns[i].name, dns[j].name);
      var lines := Exposing(dns, i, j);
      var s := Sweep(lines, dns);
      ExposingChanges(dns, i, j, Lines(s.left));
      var once := Update(lines, dns);
      assert Update(once, dns)[..|once|] == Sweep(once, dns).lines;
      assert Update(once, dns) != once;
    }
  }

  // ---------- the file ----------

  predicate ProperLine(line: string) {
    line != "" && line[|line| - 1] == '\n' && '\n' !in line[..|line| - 1]
  }

  /** readlines(): every line keeps its newline, the last one may lack it. */
  function ReadLines(text: string): seq<string> {
    if text == "" then []
    else
      var rest := ReadLines(text[1..]);
      if text[0] == '\n' || rest == [] then [[text[0]]] + rest
      else [[text[0]] + rest[0]] + rest[1..]
  }

  function WriteLines(lines: seq<string>): string {
    if lines == [] then "" else lines[0] + WriteLines(lines[1..])
  }

  function UpdateText(text: string, dns: Records): string {
    WriteLines(Update(ReadLines(text), dns))
  }

  predicate OpenLine(line: string) {
    line != "" && '\n' !in line
  }

  /** Lines as `ReadLines` yields them. */
  predicate Tidy(lines: seq<string>) {
    forall i | 0 <= i < |lines| :: ProperLine(lines[i]) || (i == |lines| - 1 && OpenLine(lines[i]))
  }

  lemma PrependChar(c: char, line: string)
    requires line != "" && c != '\n'
    ensures ProperLine([c] + line) <==> ProperLine(line)
    ensures OpenLine([c] + line) <==> OpenLine(line)
  {
    assert ([c] + line)[..|line|] == [c] + line[..|line| - 1];
  }

  lemma {:induction false} ReadLinesTidy(text: string)
    ensures Tidy(ReadLines(text)) && (text != "" ==> ReadLines(text) != [])
    ensures WriteLines(ReadLines(text)) == text
  {
    if text != "" {
      var rest := ReadLines(text[1..]);
      var lines := ReadLines(text);
      ReadLinesTidy(text[1..]);
      assert text == [text[0]] + text[1..];
      if text[0] == '\n' || rest == [] {
        assert lines[1..] == rest && lines[0][..0] == "";
      } else {
        assert lines[1..] == rest[1..];
        PrependChar(text[0], rest[0]);
        assert WriteLines(lines) == [text[0]] + (rest[0] + WriteLines(rest[1..]));
      }
    }
  }

  lemma LastOfLongerList(head: string, rest: seq<string>)
    requires rest != []
    ensures ([head] + rest)[|rest|] == rest[|rest| - 1]
    ensures |rest| > 1 ==> ([head] + rest[1..])[|rest| - 1] == rest[|rest| - 1]
  {
  }

  /** The last line is proper exactly when the text ends in a newline. */
  lemma {:induction false} LastLine(text: string)
    requires text != ""
    ensures ReadLines(text) != []
    ensures var lines := ReadLines(text);
      ProperLine(lines[|lines| - 1]) <==> text[|text| - 1] == '\n'
  {
    var c := text[0];
    var rest := ReadLines(text[1..]);
    if |text| == 1 {
      assert ReadLines(text)[0] == [c] && [c][..0] == "";
    } else {
      LastLine(text[1..]);
      assert text[1..][|text| - 2] == text[|text| - 1];
      LastOfLongerList([c], rest);
      LastOfLongerList([c] + rest[0], rest);
      if c != '\n' {
        PrependChar(c, rest[0]);
      }
    }
  }

  lemma {:induction false} ReadProperFirst(line: string, rest: string)
    requires ProperLine(line)
    ensures ReadLines(line + rest) == [line] + ReadLines(rest)
  {
    var text := line + rest;
    if |line| == 1 {
      assert text[1..] == rest && line == [text[0]];
    } else {
      assert text[1..] == line[1..] + rest && line[0] == text[0];
      assert [line[0]] + line[1..] == line;
      assert line[0] == line[..|line| - 1][0];
      PrependChar(line[0], line[1..]);
      ReadProperFirst(line[1..], rest);
      var tail := [line[1..]] + ReadLines(rest);
      assert tail[1..] == ReadLines(rest);
    }
  }

  lemma {:induction false} ReadOpen(line: string)
    requires OpenLine(line)
    ensures ReadLines(line) == [line]
  {
    if |line| > 1 {
      ReadOpen(line[1..]);
      assert [line[0]] + line[1..] == line;
    } else {
      assert line[1..] == "" && [line[0]] == line;
    }
  }

  lemma {:induction false} ReadBack(lines: seq<string>)
    requires Tidy(lines)
    ensures ReadLines(WriteLines(lines)) == lines
  {
    if |lines| == 1 && OpenLine(lines[0]) {
      assert lines[0] + WriteLines(lines[1..]) == lines[0];
      ReadOpen(lines[0]);
    } else if lines != [] {
      ReadBack(lines[1..]);
      ReadProperFirst(lines[0], WriteLines(lines[1..]));
      assert [lines[0]] + lines[1..] == lines;
    }
  }

  ghost predicate OneLiners(dns: Records) {
    forall r | r in dns :: '\n' !in r.name && '\n' !in r.ip
  }

  lemma WrittenProper(r: Record)
    requires '\n' !in r.name && '\n' !in r.ip
    ensures ProperLine(Line(r))
  {
    assert Line(r)[..|Line(r)| - 1] == r.ip + " " + r.name;
  }

  /** The guard of the appending loop, seen before the update: it has nothing to
      append, or what it appends comes behind a newline, because the text ends
      in one or its last line is replaced by one that does. */
  predicate EndsWell(text: string, dns: Records) {
    var lines := ReadLines(text);
    var s := Sweep(lines, dns);
    lines == [] || s.left == [] || ProperLine(s.lines[|lines| - 1])
  }

  lemma SweptTidy(lines: seq<string>, dns: Records)
    requires Tidy(lines) && OneLiners(dns)
    ensures Tidy(Sweep(lines, dns).lines)
    ensures forall r | r in Sweep(lines, dns).left :: ProperLine(Line(r))
  {
    SweepEffects(lines, dns);
    forall r | r in dns
      ensures ProperLine(Line(r))
    {
      WrittenProper(r);
    }
  }

  lemma TidyConcat(xs: seq<string>, ys: seq<string>)
    requires Tidy(xs) && Tidy(ys) && (xs == [] || ProperLine(xs[|xs| - 1]))
    ensures Tidy(xs + ys)
  {
    var s := xs + ys;
    forall i | 0 <= i < |s|
      ensures ProperLine(s[i]) || (i == |s| - 1 && OpenLine(s[i]))
    {
      if i >= |xs| { assert s[i] == ys[i - |xs|]; }
    }
  }

  lemma LinesTidy(dns: Records)
    requires forall r | r in dns :: ProperLine(Line(r))
    ensures Tidy(Lines(dns))
  {
    LinesAt(dns);
    assert forall i | 0 <= i < |dns| :: dns[i] in dns;
  }

  lemma UpdatedTidy(text: string, dns: Records)
    requires OneLiners(dns) && EndsWell(text, dns)
    ensures Tidy(Update(ReadLines(text), dns))
  {
    var lines := ReadLines(text);
    var s := Sweep(lines, dns);
    ReadLinesTidy(text);
    SweptTidy(lines, dns);
    LinesTidy(s.left);
    if s.left == [] {
      assert s.lines + [] == s.lines;
    } else {
      TidyConcat(s.lines, Lines(s.left));
    }
  }

  lemma {:induction false} WriteConcat(xs: seq<string>, ys: seq<string>)
    ensures WriteLines(xs + ys) == WriteLines(xs) + WriteLines(ys)
  {
    if xs == [] {
      assert xs + ys == ys;
    } else {
      assert (xs + ys)[1..] == xs[1..] + ys;
      WriteConcat(xs[1..], ys);
    }
  }

  /** An open last line that does not end well was left alone. */
  lemma OpenEndLeftAlone(lines: seq<string>, dns: Records)
    requires OneLiners(dns) && lines != []
    requires !ProperLine(Sweep(lines, dns).lines[|lines| - 1])
    ensures var n := |lines| - 1;
      var before := Sweep(lines[..n], dns);
      Sweep(lines, dns) == Swept(before.lines + [lines[n]], before.left)
  {
    var n := |lines| - 1;
    var before := Sweep(lines[..n], dns);
    var last := Sweep([lines[n]], before.left);
    SplitLast(lines);
    SweepConcat(lines[..n], [lines[n]], dns);
    SweepEffects(lines[..n], dns);
    assert Sweep(lines, dns) == Swept(before.lines + last.lines, last.left);
    assert (before.lines + last.lines)[n] == last.lines[0];
    OpenNotWritten([lines[n]], before.left, dns);
  }

  /** The lines on disk after the first update: the open line and the first
      appended one have merged. */
  function Merged(init: seq<string>, open: string, left: Records): seq<string>
    requires left != []
  {
    init + ([open + Line(left[0])] + Lines(left[1..]))
  }

  lemma MergedOnDisk(init: seq<string>, open: string, left: Records)
    requires left != []
    ensures WriteLines(init + [open] + Lines(left)) == WriteLines(Merged(init, open, left))
    ensures |WriteLines(init + Lines(left))| == |WriteLines(Merged(init, open, left))| - |open|
  {
    var more := Lines(left[1..]);
    assert Lines(left) == [Line(left[0])] + more;
    assert init + [open] + Lines(left) == init + ([open] + ([Line(left[0])] + more));
    MergedText(open, Line(left[0]), more);
    WriteConcat(init, [open] + ([Line(left[0])] + more));
    WriteConcat(init, [open + Line(left[0])] + more);
    WriteConcat(init, Lines(left));
  }

  lemma MergedUpdate(lines: seq<string>, open: string, dns: Records)
    requires Harmless(dns)
    ensures var before := Sweep(lines, dns);
      before.left != [] ==>
        Update(Merged(before.lines, open, before.left), dns) == before.lines + Lines(before.left)
  {
    var before := Sweep(lines, dns);
    if before.left != [] {
      var tail := [open + Line(before.left[0])] + Lines(before.left[1..]);
      SweepAgain(lines, dns);
      SweepConcat(before.lines, tail, dns);
      MergedLineReplaced(open, before.left);
      assert before.lines + Lines(before.left) + [] == before.lines + Lines(before.left);
    }
  }

  lemma MergedTidy(init: seq<string>, open: string, left: Records)
    requires Tidy(init + [open]) && OpenLine(open)
    requires left != [] && forall r | r in left :: ProperLine(Line(r))
    ensures Tidy(Merged(init, open, left))
  {
    forall i | 0 <= i < |init|
      ensures ProperLine(init[i])
    {
      assert (init + [open])[i] == init[i];
    }
    var merged := open + Line(left[0]);
    assert left[0] in left;
    assert merged[..|merged| - 1] == open + Line(left[0])[..|Line(left[0])| - 1];
    DiskTidy(init, merged, left);
  }

  /** An open last line and an appended one merge on disk, and the second update
      loses the text of the first. */
  lemma OpenEndMerges(text: string, dns: Records)
    requires OneLiners(dns) && Harmless(dns) && !EndsWell(text, dns)
    ensures |UpdateText(UpdateText(text, dns), dns)| < |UpdateText(text, dns)|
  {
    var lines := ReadLines(text);
    var n := |lines| - 1;
    var before := Sweep(lines[..n], dns);
    ReadLinesTidy(text);
    SweptTidy(lines, dns);
    OpenEndLeftAlone(lines, dns);
    var disk := Merged(before.lines, lines[n], before.left);
    MergedOnDisk(before.lines, lines[n], before.left);
    MergedTidy(before.lines, lines[n], before.left);
    ReadBack(disk);
    MergedUpdate(lines[..n], lines[n], dns);
  }

  lemma OpenNotWritten(line: seq<string>, before: Records, dns: Records)
    requires |line| == 1 && OneLiners(dns) && forall r | r in before :: r in dns
    requires !ProperLine(Sweep(line, before).lines[0])
    ensures Sweep(line, before) == Swept(line, before)
  {
    var i := Pick(line[0], before);
    assert line[1..] == [];
    if i < |before| {
      assert before[i] in before;
      WrittenProper(before[i]);
    }
  }

  lemma MergedText(open: string, written: string, more: seq<string>)
    ensures WriteLines([open] + ([written] + more)) == WriteLines([open + written] + more)
    ensures |WriteLines([open + written] + more)| == |open| + |WriteLines([written] + more)|
  {
    assert ([open] + ([written] + more))[1..] == [written] + more;
    assert ([written] + more)[1..] == more && ([open + written] + more)[1..] == more;
    assert open + (written + WriteLines(more)) == open + written + WriteLines(more);
  }

  lemma DiskTidy(init: seq<string>, merged: string, left: Records)
    requires forall l | l in init :: ProperLine(l)
    requires ProperLine(merged) && left != [] && forall r | r in left :: ProperLine(Line(r))
    ensures Tidy(init + ([merged] + Lines(left[1..])))
  {
    LinesAt(left[1..]);
    assert forall i | 0 <= i < |left[1..]| :: left[1..][i] in left;
    assert forall i | 0 <= i < |init| :: init[i] in init;
  }

  lemma OwnMergedLine(open: string, r: Record)
    ensures Occurs(r.name, open + Line(r))
  {
    OccursInConcat(r.name, open + r.ip + " ", "\n");
    assert open + Line(r) == open + r.ip + " " + r.name + "\n";
  }

  lemma MergedLineReplaced(open: string, left: Records)
    requires left != []
    ensures Sweep([open + Line(left[0])] + Lines(left[1..]), left) == Swept(Lines(left), [])
  {
    var lines := [open + Line(left[0])] + Lines(left[1..]);
    OwnMergedLine(open, left[0]);
    assert Pick(lines[0], left) == 0;
    assert Remove(left, 0) == left[1..] && lines[1..] == Lines(left[1..]);
    SweepAppended(left[1..]);
  }

  /** On the file itself a second update changes nothing exactly when no name
      has to be appended behind a last line without a newline. */
  lemma FileIdempotentIff(text: string, dns: Records)
    requires OneLiners(dns) && Harmless(dns)
    ensures UpdateText(UpdateText(text, dns), dns) == UpdateText(text, dns) <==> EndsWell(text, dns)
    ensures text == "" || text[|text| - 1] == '\n' ==> EndsWell(text, dns)
  {
    if text != "" && text[|text| - 1] == '\n' {
      LastLine(text);
      LastStaysProper(ReadLines(text), dns);
    }
    if EndsWell(text, dns) {
      UpdatedTidy(text, dns);
      ReadBack(Update(ReadLines(text), dns));
      UpdateAgain(ReadLines(text), dns);
    } else {
      OpenEndMerges(text, dns);
    }
  }

  /** One line without the name: it is kept and the name appended behind it. */
  lemma AppendedBehind(text: string, r: Record)
    requires ReadLines(text) == [text] && !Occurs(r.name, text)
    ensures UpdateText(text, [r]) == text + Line(r)
  {
    SweepSingle([text], r, 1);
    LinesAt([r]);
    assert Lines([r]) == [Line(r)];
    assert [text] + [Line(r)] == [text, Line(r)];
    WriteTwo(text, Line(r));
  }

  lemma WriteTwo(x: string, y: string)
    ensures WriteLines([x]) == x && WriteLines([x, y]) == x + y
  {
    assert [x, y][1..] == [y] && [y][1..] == [] && [x][1..] == [];
  }

  /** One line with the name: it is replaced. */
  lemma ReplacedWhole(text: string, r: Record)
    requires ReadLines(text) == [text] && Occurs(r.name, text)
    ensures UpdateText(text, [r]) == Line(r)
  {
    SweepSingle([text], r, 0);
    assert [Line(r)] + Lines([]) == [Line(r)];
    WriteTwo(Line(r), "");
  }

  lemma OneLineRead(line: string)
    requires ProperLine(line) || OpenLine(line)
    ensures ReadLines(line) == [line]
  {
    ReadBack([line]);
    WriteTwo(line, "");
  }

  /** The other side at an input: "b" is appended behind the open line "a", and
      a second update replaces the joined line. */
  lemma OpenEndChangesTwice()
    ensures UpdateText("a", [Record("b", "1")]) == "a" + "1 b\n"
    ensures UpdateText("a" + "1 b\n", [Record("b", "1")]) == "1 b\n"
  {
    var r := Record("b", "1");
    assert Line(r) == "1 b\n";
    OneLineRead("a");
    AppendedBehind("a", r);
    WrittenProper(r);
    assert ProperLine("a" + Line(r)) by { assert ("a" + Line(r))[..4] == "a" + Line(r)[..3]; }
    OneLineRead("a" + Line(r));
    OwnMergedLine("a", r);
    ReplacedWhole("a" + Line(r), r);
  }

  lemma LastStaysProper(lines: seq<string>, dns: Records)
    requires OneLiners(dns) && lines != [] && ProperLine(lines[|lines| - 1])
    ensures ProperLine(Sweep(lines, dns).lines[|lines| - 1])
  {
    SweepEffects(lines, dns);
    forall r | r in dns
      ensures ProperLine(Line(r))
    {
      WrittenProper(r);
    }
  }

  // ---------- the loops ----------

  class HostsFile {
    var text: string

    constructor (text: string)
      ensures this.text == text
    {
      this.text := text;
    }
  }

  /** The caller's dictionary; matched names are deleted from it. */
  class DnsMap {
    var records: Records

    constructor (records: Records)
      ensures this.records == records
    {
      this.records := records;
    }
  }

  /** The first loop: `hostsLines[i]` is overwritten and the name deleted from
      the map. `bound` tells whether its loop variables got a value. */
  method ReplaceMatched(dnsMap: DnsMap, lines: seq<string>) returns (hostsLines: seq<string>, bound: bool)
    modifies dnsMap
    ensures Swept(hostsLines, dnsMap.records) == Sweep(lines, old(dnsMap.records))
    ensures bound <==> lines != [] && old(dnsMap.records) != []
  {
    ghost var dns := dnsMap.records;
    hostsLines, bound := lines, false;
    for i := 0 to |lines|
      invariant hostsLines == Sweep(lines[..i], dns).lines + lines[i..]
      invariant dnsMap.records == Sweep(lines[..i], dns).left
      invariant bound <==> i > 0 && dns != []
    {
      SweepNext(lines, i, dns);
      SweepNothing(lines[..i]);
      bound := bound || dnsMap.records != [];
      var k := FindRecord(hostsLines[i], dnsMap.records);
      Overwrite(Sweep(lines[..i], dns).lines, lines[i..], Next(lines[i], dnsMap.records).line);
      if k < |dnsMap.records| {
        hostsLines := hostsLines[i := Line(dnsMap.records[k])];
        dnsMap.records := Remove(dnsMap.records, k);
      }
    }
    assert lines[..|lines|] == lines;
  }

  lemma Overwrite(done: seq<string>, rest: seq<string>, line: string)
    requires rest != []
    ensures (done + rest)[|done| := line] == done + [line] + rest[1..]
    ensures line == rest[0] ==> done + rest == done + [line] + rest[1..]
  {
  }

  /** The inner loop over a copy of the map. */
  method FindRecord(line: string, records: Records) returns (k: nat)
    ensures k == Pick(line, records)
  {
    k := 0;
    while k < |records|
      invariant 0 <= k <= |records|
      invariant forall j | 0 <= j < k :: !Occurs(records[j].name, line)
    {
      if Occurs(records[k].name, line) {
        break;
      }
      k := k + 1;
    }
    PickUnique(line, records, k);
  }

  /** The second loop: names still in the map are appended. */
  method AppendLeft(hostsLines: seq<string>, left: Records) returns (all: seq<string>)
    ensures all == hostsLines + Lines(left)
  {
    all := hostsLines;
    assert left[0..] == left;
    for k := 0 to |left|
      invariant all + Lines(left[k..]) == hostsLines + Lines(left)
    {
      assert left[k..][0] == left[k] && left[k..][1..] == left[k + 1..];
      all := all + [Line(left[k])];
    }
    assert all + [] == all;
  }

  /** `raised` is the error of the log line after the writing, which names the
      last record visited: an empty map has none. */
  method UpdateEtcHosts(dnsMap: DnsMap, hosts: HostsFile) returns (raised: bool)
    modifies dnsMap, hosts
    ensures hosts.text == UpdateText(old(hosts.text), old(dnsMap.records))
    ensures dnsMap.records == Sweep(ReadLines(old(hosts.text)), old(dnsMap.records)).left
    ensures raised <==> old(dnsMap.records) == []
  {
    SweepNothing(ReadLines(hosts.text));
    var hostsLines, bound := ReplaceMatched(dnsMap, ReadLines(hosts.text));
    hostsLines := AppendLeft(hostsLines, dnsMap.records);
    hosts.text := WriteLines(hostsLines);
    raised := !(bound || dnsMap.records != []);
  }

  lemma SweepNext(lines: seq<string>, i: nat, dns: Records)
    requires i < |lines|
    ensures var s := Sweep(lines[..i], dns);
      var next := Next(lines[i], s.left);
      Sweep(lines[..i + 1], dns) == Swept(s.lines + [next.line], next.left)
  {
    assert lines[..i + 1] == lines[..i] + [lines[i]];
    SweepConcat(lines[..i], [lines[i]], dns);
    assert [lines[i]][1..] == [];
  }

  /** The loop of Day2Cluster.config_etc_hosts, with its else branch. */
  method ReplaceFirstOrAppend(lines: seq<string>, r: Record) returns (hostsLines: seq<string>)
    ensures hostsLines == Update(lines, [r])
  {
    hostsLines := lines;
    var i := 0;
    while i < |lines|
      invariant 0 <= i <= |lines| && forall j | 0 <= j < i :: !Occurs(r.name, lines[j])
    {
      if Occurs(r.name, lines[i]) {
        hostsLines := hostsLines[i := r.ip + " " + r.name + "\n"];
        SweepSingle(lines, r, i);
        assert hostsLines + [] == hostsLines;
        return;
      }
      i := i + 1;
    }
    SweepSingle(lines, r, i);
    LinesAt([r]);
    assert Lines([r]) == [Line(r)];
    hostsLines := hostsLines + [r.ip + " " + r.name + "\n"];
  }

  lemma {:induction false} SweepSingle(lines: seq<string>, r: Record, i: nat)
    requires i <= |lines| && forall j | 0 <= j < i :: !Occurs(r.name, lines[j])
    requires i < |lines| ==> Occurs(r.name, lines[i])
    ensures Sweep(lines, [r]) ==
      if i < |lines| then Swept(lines[i := Line(r)], []) else Swept(lines, [r])
    decreases |lines|
  {
    if lines != [] {
      if i == 0 {
        assert Pick(lines[0], [r]) == 0 && Remove([r], 0) == [];
        SweepNothing(lines[1..]);
      } else {
        assert Pick(lines[0], [r]) == 1;
        SweepSingle(lines[1..], r, i - 1);
      }
    }
  }

  /** Day2Cluster.config_etc_hosts writes what `UpdateEtcHosts` writes for the
      one-entry map. */
  method ConfigEtcHosts(hosts: HostsFile, apiVip: string, apiVipDnsname: string)
    modifies hosts
    ensures hosts.text == UpdateText(old(hosts.text), [Record(apiVipDnsname, apiVip)])
  {
    var hostsLines := ReadLines(hosts.text);
    hostsLines := ReplaceFirstOrAppend(hostsLines, Record(apiVipDnsname, apiVip));
    hosts.text := WriteLines(hostsLines);
  }

  lemma {:induction false} SweepNothing(lines: seq<string>)
    ensures Sweep(lines, []) == Swept(lines, [])
    decreases |lines|
  {
    if lines != [] { SweepNothing(lines[1..]); }
  }
}
