/** get_field_from_resource: dotted paths with list indexes into nested
    resources. */
module ResourcePath {
  import opened Sequences
  import opened Text

  datatype Json = Dict(entries: map<string, Json>) | List(items: seq<Json>) | Leaf(text: string)

  datatype ErrorKind = KeyError | TypeError | IndexError | ValueError

  /** An error carries the number of the path step it was raised at. */
  datatype Result<+T> = Ok(value: T) | Raised(kind: ErrorKind, at: nat)

  // ---------- Python's string operations ----------

  /** str.rstrip("]") */
  function StripBrackets(s: string): string {
    if s != "" && s[|s| - 1] == ']' then StripBrackets(s[..|s| - 1]) else s
  }

  predicate IsBlank(c: char) {
    c in " \t\n\r" || 0x0B <= c as int <= 0x0C || 0x1C <= c as int <= 0x1F
  }

  function TrimEnd(s: string): string {
    if s != "" && IsBlank(s[|s| - 1]) then TrimEnd(s[..|s| - 1]) else s
  }

  function Trim(s: string): string {
    if s != "" && IsBlank(s[0]) then Trim(s[1..]) else TrimEnd(s)
  }

  /** Digits with single underscores between them. */
  predicate Numeral(s: string) {
    && s != "" && IsDigit(s[0]) && IsDigit(s[|s| - 1])
    && forall i | 0 <= i < |s| :: IsDigit(s[i]) || (s[i] == '_' && 0 < i && s[i - 1] != '_')
  }

  function WithoutUnderscores(s: string): (d: string)
    requires forall i | 0 <= i < |s| :: IsDigit(s[i]) || s[i] == '_'
    ensures AllDigits(d)
  {
    if s == "" then ""
    else if s[0] == '_' then WithoutUnderscores(s[1..])
    else [s[0]] + WithoutUnderscores(s[1..])
  }

  function ReadInt(t: string): Option<int> {
    if Numeral(t) then Some(Number(WithoutUnderscores(t)))
    else if |t| > 1 && t[0] == '-' && Numeral(t[1..]) then
      var n: int := Number(WithoutUnderscores(t[1..])); Some(-n)
    else if |t| > 1 && t[0] == '+' && Numeral(t[1..]) then Some(Number(WithoutUnderscores(t[1..])))
    else None
  }

  /** int() on blanks, an optional sign and a numeral; None is its ValueError. */
  function IntOf(s: string): Option<int> {
    ReadInt(Trim(s))
  }

  // ---------- the evaluator ----------

  function Member(current: Json, key: string, at: nat): Result<Json> {
    if !current.Dict? || key !in current.entries then Raised(KeyError, at) else Ok(current.entries[key])
  }

  /** Subscription of a list: negative indexes count from the end. */
  function Item(value: Json, index: int, at: nat): Result<Json> {
    if !value.List? then Raised(TypeError, at)
    else if index >= |value.items| then Raised(IndexError, at)
    else if index >= 0 then Ok(value.items[index])
    else if -index <= |value.items| then Ok(value.items[|value.items| + index])
    else Raised(IndexError, at)
  }

  /** One part of the path. */
  function Resolve(current: Json, part: string, at: nat): Result<Json> {
    if '[' in part && ']' in part then
      var pieces := Split(part, '[');
      if |pieces| != 2 then Raised(ValueError, at)
      else match IntOf(StripBrackets(pieces[1]))
        case None => Raised(ValueError, at)
        case Some(index) =>
          match Member(current, pieces[0], at)
          case Raised(kind, at) => Raised(kind, at)
          case Ok(value) => Item(value, index, at)
    else Member(current, part, at)
  }

  function Walk(current: Json, parts: seq<string>, at: nat): Result<Json>
    decreases |parts|
  {
    if parts == [] then Ok(current)
    else match Resolve(current, parts[0], at)
      case Raised(kind, at) => Raised(kind, at)
      case Ok(next) => Walk(next, parts[1..], at + 1)
  }

  method GetFieldFromResource(resource: Json, path: string) returns (r: Result<Json>)
    ensures r == Walk(resource, Split(path, '.'), 0)
  {
    var parts := Split(path, '.');
    var current := resource;
    assert parts[0..] == parts;
    for i := 0 to |parts|
      invariant Walk(current, parts[i..], i) == Walk(resource, parts, 0)
    {
      assert parts[i..][0] == parts[i] && parts[i..][1..] == parts[i + 1..];
      var part := parts[i];
      if '[' in part && ']' in part {
        var pieces := Split(part, '[');
        if |pieces| != 2 {
          return Raised(ValueError, i);
        }
        var index := IntOf(StripBrackets(pieces[1]));
        if index.None? {
          return Raised(ValueError, i);
        }
        var key := pieces[0];
        if !current.Dict? || key !in current.entries {
          return Raised(KeyError, i);
        }
        current := current.entries[key];
        if !current.List? {
          return Raised(TypeError, i);
        }
        var item := Item(current, index.value, i);
        if item.Raised? {
          return item;
        }
        current := item.value;
      } else {
        if !current.Dict? || part !in current.entries {
          return Raised(KeyError, i);
        }
        current := current.entries[part];
      }
    }
    return Ok(current);
  }

  // ---------- direct navigation ----------

  /** A key and possibly a position in the list found under it. */
  datatype Step = Step(key: string, index: Option<nat>)

  function Navigate(current: Json, steps: seq<Step>, at: nat): Result<Json>
    decreases |steps|
  {
    if steps == [] then Ok(current)
    else match current
      case Dict(entries) =>
        if steps[0].key !in entries then Raised(KeyError, at)
        else
          var value := entries[steps[0].key];
          (match steps[0].index
           case None => Navigate(value, steps[1..], at + 1)
           case Some(i) =>
             match value
             case List(items) => if i < |items| then Navigate(items[i], steps[1..], at + 1) else Raised(IndexError, at)
             case _ => Raised(TypeError, at))
      case _ => Raised(KeyError, at)
  }

  predicate PlainKey(key: string) {
    '.' !in key && '[' !in key && ']' !in key
  }

  function Indexed(key: string, index: string): string {
    key + "[" + index + "]"
  }

  function PrintStep(s: Step): string {
    match s.index
    case None => s.key
    case Some(i) => Indexed(s.key, Decimal(i))
  }

  function PrintSteps(steps: seq<Step>): seq<string> {
    if steps == [] then [] else [PrintStep(steps[0])] + PrintSteps(steps[1..])
  }

  function PathOf(steps: seq<Step>): string {
    Join(PrintSteps(steps), '.')
  }

  // ---------- reading a printed path ----------

  lemma {:induction false} StripOne(s: string)
    requires ']' !in s
    ensures StripBrackets(s + "]") == s
  {
    assert (s + "]")[..|s + "]"| - 1] == s;
  }

  /** A part with an index text comes apart into key and index again. */
  lemma IndexedParts(key: string, index: string)
    requires PlainKey(key) && PlainKey(index)
    ensures var part := Indexed(key, index);
      '.' !in part && '[' in part && ']' in part && Split(part, '[') == [key, index + "]"]
    ensures StripBrackets(index + "]") == index
  {
    var part := Indexed(key, index);
    assert part == key + ['['] + (index + "]");
    assert part[|key|] == '[' && part[|part| - 1] == ']';
    SplitFirst(key, index + "]", '[');
    SplitWithout(index + "]", '[');
    StripOne(index);
  }

  lemma {:induction false} PlainDigits(s: string)
    requires AllDigits(s)
    ensures WithoutUnderscores(s) == s
  {
    if s != "" { PlainDigits(s[1..]); }
  }

  lemma Untrimmed(s: string)
    requires s != "" && !IsBlank(s[0]) && !IsBlank(s[|s| - 1])
    ensures Trim(s) == s
  {
  }

  lemma DigitsAreNumeral(s: string)
    requires AllDigits(s) && s != ""
    ensures Numeral(s) && s[0] != '-' && s[0] != '+'
    ensures !IsBlank(s[0]) && !IsBlank(s[|s| - 1])
  {
  }

  lemma DigitsRead(s: string)
    requires AllDigits(s) && s != ""
    ensures IntOf(s) == Some(Number(s))
  {
    DigitsAreNumeral(s);
    Untrimmed(s);
    PlainDigits(s);
  }

  lemma MinusNumeral(s: string, t: string)
    requires Numeral(s) && t == ['-'] + s
    ensures ReadInt(t) == Some(0 - Number(WithoutUnderscores(s)))
  {
    assert t[1..] == s;
    assert !Numeral(t) by { assert !IsDigit(t[0]); }
  }

  lemma MinusRead(s: string, t: string)
    requires AllDigits(s) && s != "" && t == ['-'] + s
    ensures IntOf(t) == Some(0 - Number(s))
  {
    DigitsAreNumeral(s);
    PlainDigits(s);
    MinusNumeral(s, t);
    assert t[|t| - 1] == s[|s| - 1] && !IsBlank(t[0]);
    Untrimmed(t);
  }

  lemma NumeralPlain(n: nat)
    ensures PlainKey(Decimal(n)) && IntOf(Decimal(n)) == Some(n)
  {
    var d := Decimal(n);
    DigitsRead(d);
    NumberOfDecimal(n);
    NumeralKey(d);
  }

  lemma NumeralKey(d: string)
    requires AllDigits(d)
    ensures PlainKey(d) && PlainKey("-" + d)
  {
  }

  lemma PrintedStep(s: Step)
    requires PlainKey(s.key)
    ensures '.' !in PrintStep(s)
  {
    if s.index.Some? {
      NumeralPlain(s.index.value);
      IndexedParts(s.key, Decimal(s.index.value));
    }
  }

  lemma ResolvePrinted(current: Json, s: Step, at: nat)
    requires PlainKey(s.key)
    ensures Resolve(current, PrintStep(s), at) ==
      match s.index
      case None => Member(current, s.key, at)
      case Some(i) =>
        match Member(current, s.key, at)
        case Raised(kind, at) => Raised(kind, at)
        case Ok(value) => Item(value, i, at)
  {
    if s.index.Some? {
      NumeralPlain(s.index.value);
      IndexedParts(s.key, Decimal(s.index.value));
    }
  }

  lemma {:induction false} WalkPrinted(current: Json, steps: seq<Step>, at: nat)
    requires forall s | s in steps :: PlainKey(s.key)
    ensures Walk(current, PrintSteps(steps), at) == Navigate(current, steps, at)
    decreases |steps|
  {
    if steps != [] {
      var s := steps[0];
      ResolvePrinted(current, s, at);
      assert PrintSteps(steps)[1..] == PrintSteps(steps[1..]);
      var next := Resolve(current, PrintStep(s), at);
      if next.Ok? {
        WalkPrinted(next.value, steps[1..], at + 1);
      }
    }
  }

  lemma {:induction false} PrintStepsPlain(steps: seq<Step>)
    requires forall s | s in steps :: PlainKey(s.key)
    ensures forall p | p in PrintSteps(steps) :: '.' !in p
  {
    if steps != [] {
      PrintedStep(steps[0]);
      PrintStepsPlain(steps[1..]);
    }
  }

  /** Evaluating the text of a path is navigating it: the same value, or the
      same kind of error at the same step. */
  lemma PathIsNavigation(resource: Json, steps: seq<Step>)
    requires steps != [] && forall s | s in steps :: PlainKey(s.key)
    ensures Walk(resource, Split(PathOf(steps), '.'), 0) == Navigate(resource, steps, 0)
  {
    PrintStepsPlain(steps);
    SplitJoin(PrintSteps(steps), '.');
    WalkPrinted(resource, steps, 0);
  }

  function Negative(n: nat): string {
    "-" + Decimal(n)
  }

  lemma NegativePlain(n: nat, m: int)
    requires m == 0 - n
    ensures PlainKey(Negative(n)) && IntOf(Negative(n)).Some? && IntOf(Negative(n)).value == m
  {
    NumeralKey(Decimal(n));
    MinusRead(Decimal(n), Negative(n));
    NumberOfDecimal(n);
  }

  /** An index written with a minus sign counts from the end of the list, and is
      an IndexError exactly when it reaches before its start. */
  lemma NegativeIndex(resource: Json, items: seq<Json>, key: string, n: int)
    requires PlainKey(key) && n > 0
    requires resource.Dict? && key in resource.entries && resource.entries[key] == List(items)
    ensures Walk(resource, Split(Indexed(key, Negative(n)), '.'), 0) ==
      if n <= |items| then Ok(items[|items| - n]) else Raised(IndexError, 0)
  {
    NegativePlain(n, -n);
    WalkIndexed(resource, items, key, Negative(n), -n);
  }

  lemma WalkIndexed(resource: Json, items: seq<Json>, key: string, text: string, index: int)
    requires PlainKey(key) && PlainKey(text) && IntOf(text).Some? && IntOf(text).value == index
    requires resource.Dict? && key in resource.entries && resource.entries[key] == List(items)
    ensures Walk(resource, Split(Indexed(key, text), '.'), 0) == Item(List(items), index, 0)
  {
    var part := Indexed(key, text);
    IndexedParts(key, text);
    SplitWithout(part, '.');
    WalkOne(resource, part);
  }

  lemma WalkOne(resource: Json, part: string)
    ensures Walk(resource, [part], 0) == Resolve(resource, part, 0)
  {
    assert [part][1..] == [];
  }

  // ---------- index texts ----------

  predicate Blank(s: string) {
    forall i | 0 <= i < |s| :: IsBlank(s[i])
  }

  lemma {:induction false} TrimEndOf(s: string, post: string)
    requires Blank(post) && s != "" && !IsBlank(s[|s| - 1])
    ensures TrimEnd(s + post) == s
  {
    if post == "" {
      assert s + post == s;
    } else {
      assert (s + post)[..|s + post| - 1] == s + post[..|post| - 1];
      TrimEndOf(s, post[..|post| - 1]);
    }
  }

  lemma {:induction false} TrimOf(pre: string, s: string, post: string)
    requires Blank(pre) && Blank(post) && s != "" && !IsBlank(s[0]) && !IsBlank(s[|s| - 1])
    ensures Trim(pre + s + post) == s
  {
    if pre == "" {
      assert pre + s + post == s + post;
      TrimEndOf(s, post);
    } else {
      assert (pre + s + post)[1..] == pre[1..] + s + post;
      TrimOf(pre[1..], s, post);
    }
  }

  lemma UnderscoreFirst(s: string, rest: string)
    requires s == ['_'] + rest && forall i | 0 <= i < |rest| :: IsDigit(rest[i]) || rest[i] == '_'
    ensures forall i | 0 <= i < |s| :: IsDigit(s[i]) || s[i] == '_'
    ensures WithoutUnderscores(s) == WithoutUnderscores(rest)
  {
    assert s[1..] == rest;
  }

  lemma {:induction false} UnderscoresConcat(a: string, b: string)
    requires AllDigits(a) && forall i | 0 <= i < |b| :: IsDigit(b[i]) || b[i] == '_'
    ensures forall i | 0 <= i < |a + b| :: IsDigit((a + b)[i]) || (a + b)[i] == '_'
    ensures WithoutUnderscores(a + b) == a + WithoutUnderscores(b)
  {
    if a == "" {
      assert a + b == b;
    } else {
      assert (a + b)[0] == a[0] && (a + b)[1..] == a[1..] + b;
      UnderscoresConcat(a[1..], b);
      ConcatAssoc([a[0]], a[1..], WithoutUnderscores(b));
      assert [a[0]] + a[1..] == a;
    }
  }

  /** Blanks around an index, a plus sign and an underscore between digits do not
      change what it reads as. */
  lemma IndexTexts(pre: string, a: string, b: string, post: string)
    requires Blank(pre) && Blank(post) && AllDigits(a) && a != "" && AllDigits(b) && b != ""
    ensures AllDigits(a + b)
    ensures IntOf(pre + a + post) == Some(Number(a))
    ensures IntOf("+" + a) == Some(Number(a))
    ensures IntOf(a + "_" + b) == Some(Number(a + b))
  {
    DigitsAreNumeral(a);
    DigitsAreNumeral(b);
    PlainDigits(a);
    PlainDigits(b);
    TrimOf(pre, a, post);
    PlusRead(a, "+" + a);
    assert a + "_" + b == a + (['_'] + b);
    GroupsRead(a, b, a + "_" + b);
  }

  lemma PlusRead(s: string, t: string)
    requires Numeral(s) && WithoutUnderscores(s) == s && !IsBlank(s[|s| - 1]) && t == ['+'] + s && AllDigits(s)
    ensures IntOf(t) == Some(Number(s))
  {
    assert t[1..] == s && t[|t| - 1] == s[|s| - 1] && !IsDigit(t[0]);
    Untrimmed(t);
  }

  lemma GroupsNumeral(a: string, b: string, t: string)
    requires AllDigits(a) && a != "" && AllDigits(b) && b != "" && t == a + (['_'] + b)
    ensures Numeral(t) && !IsBlank(t[0]) && !IsBlank(t[|t| - 1])
  {
    assert t[0] == a[0] && t[|t| - 1] == b[|b| - 1];
    DigitsAreNumeral(a);
    DigitsAreNumeral(b);
    forall i | 0 <= i < |t|
      ensures IsDigit(t[i]) || (t[i] == '_' && 0 < i && t[i - 1] != '_')
    {
      assert i == |a| ==> t[i - 1] == a[i - 1];
    }
  }

  lemma NumeralRead(t: string, d: string)
    requires Numeral(t) && !IsBlank(t[0]) && !IsBlank(t[|t| - 1]) && WithoutUnderscores(t) == d
    ensures IntOf(t) == Some(Number(d))
  {
    Untrimmed(t);
  }

  lemma GroupsRead(a: string, b: string, t: string)
    requires AllDigits(a) && a != "" && AllDigits(b) && b != "" && t == a + (['_'] + b)
    ensures AllDigits(a + b) && IntOf(t) == Some(Number(a + b))
  {
    PlainDigits(b);
    UnderscoreFirst(['_'] + b, b);
    UnderscoresConcat(a, ['_'] + b);
    GroupsNumeral(a, b, t);
    NumeralRead(t, a + b);
  }

  /** A part with a bracket of one kind only is a plain key. */
  lemma LoneBracketIsKey(current: Json, part: string, at: nat)
    requires '[' !in part || ']' !in part
    ensures Resolve(current, part, at) ==
      if current.Dict? && part in current.entries then Ok(current.entries[part]) else Raised(KeyError, at)
  {
  }

  /** A part with two opening brackets and a closing one is a ValueError before
      anything is looked up. */
  lemma TwoOpenedRaise(current: Json, at: nat, x: string, y: string, z: string)
    requires '[' !in x && '[' !in y && ']' in z
    ensures Resolve(current, x + ['['] + (y + ['['] + z), at) == Raised(ValueError, at)
  {
    TwoOpened(x, y, z);
  }

  /** Further closing brackets are ignored. */
  lemma ExtraClosedIgnored(current: Json, at: nat, key: string, n: nat)
    requires PlainKey(key)
    ensures Resolve(current, Indexed(key, Decimal(n) + "]"), at) == Resolve(current, Indexed(key, Decimal(n)), at)
  {
    NumeralPlain(n);
    IndexedParts(key, Decimal(n));
    TwoClosed(key, Decimal(n));
  }

  lemma TwoOpened(x: string, y: string, z: string)
    requires '[' !in x && '[' !in y && ']' in z
    ensures var part := x + ['['] + (y + ['['] + z);
      '[' in part && ']' in part && |Split(part, '[')| > 2
  {
    var rest := y + ['['] + z;
    var part := x + ['['] + rest;
    SplitFirst(x, rest, '[');
    SplitFirst(y, z, '[');
    assert part[|x|] == '[';
    var k :| 0 <= k < |z| && z[k] == ']';
    assert part[|x| + 1 + |y| + 1 + k] == ']';
  }

  lemma TwoClosed(key: string, index: string)
    requires PlainKey(key) && PlainKey(index)
    ensures var part := Indexed(key, index + "]");
      '[' in part && ']' in part && Split(part, '[') == [key, index + "]" + "]"]
    ensures StripBrackets(index + "]" + "]") == index
  {
    var part := Indexed(key, index + "]");
    assert part == key + ['['] + (index + "]" + "]");
    assert part[|key|] == '[' && part[|part| - 1] == ']';
    SplitFirst(key, index + "]" + "]", '[');
    SplitWithout(index + "]" + "]", '[');
    StripOne(index);
    assert (index + "]" + "]")[..|index| + 1] == index + "]";
  }
}
