/** Facts about sequences that several components need. */
module Sequences {

  lemma ConcatAssoc<T>(a: seq<T>, b: seq<T>, c: seq<T>)
    ensures a + b + c == a + (b + c)
  {
  }

  lemma SplitLast<T>(s: seq<T>)
    requires s != []
    ensures s[..|s| - 1] + [s[|s| - 1]] == s
  {
  }

  /** No element occurs twice. */
  predicate Distinct<T(==)>(s: seq<T>) {
    forall i, j | 0 <= i < j < |s| :: s[i] != s[j]
  }

  lemma DistinctConcat<T>(xs: seq<T>, ys: seq<T>)
    ensures Distinct(xs + ys) <==> Distinct(xs) && Distinct(ys) && forall x | x in xs :: x !in ys
  {
    var s := xs + ys;
    if Distinct(s) {
      forall i, j | 0 <= i < j < |xs| ensures xs[i] != xs[j] { assert s[i] == xs[i] && s[j] == xs[j]; }
      forall i, j | 0 <= i < j < |ys| ensures ys[i] != ys[j] {
        assert s[|xs| + i] == ys[i] && s[|xs| + j] == ys[j];
      }
      forall x | x in xs ensures x !in ys {
        var i :| 0 <= i < |xs| && xs[i] == x;
        forall j | 0 <= j < |ys| ensures ys[j] != x { assert s[i] == x && s[|xs| + j] == ys[j]; }
      }
    }
    if Distinct(xs) && Distinct(ys) && forall x | x in xs :: x !in ys {
      forall i, j | 0 <= i < j < |s| ensures s[i] != s[j] {
        assert i < |xs| <= j ==> xs[i] in xs && ys[j - |xs|] in ys;
      }
    }
  }

  lemma DistinctCons<T>(x: T, rest: seq<T>)
    ensures Distinct([x] + rest) <==> x !in rest && Distinct(rest)
  {
    DistinctConcat([x], rest);
    assert [x][0] in [x];
  }
}
