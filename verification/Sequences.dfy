/** Facts about slices, kept apart from the contexts that use them. */
module Sequences {

  function Max(a: nat, b: nat): nat { if a < b then b else a }

  lemma SliceLast<T>(s: seq<T>, i: nat, j: nat)
    requires i < j <= |s|
    ensures s[i..j] == s[i..j - 1] + [s[j - 1]]
  {
  }

  lemma AppendSliceLast<T>(a: seq<T>, s: seq<T>, i: nat, j: nat)
    requires i < j <= |s|
    ensures a + s[i..j] == a + s[i..j - 1] + [s[j - 1]]
  {
  }

  lemma SplitAround<T>(a: seq<T>, s: seq<T>, j: nat)
    requires j < |s|
    ensures a + s[..j] + [s[j]] + s[j + 1..] == a + s
  {
  }

  lemma WholeSlices<T>(s: seq<T>)
    ensures s[..|s|] == s && s[..0] == [] && s[|s|..] == []
  {
  }

  lemma SlicesOfSnoc<T>(s: seq<T>, e: T, k: nat)
    requires k <= |s|
    ensures (s + [e])[..k] == s[..k] && (s + [e])[k..] == s[k..] + [e]
  {
  }

  lemma Associative<T>(a: seq<T>, b: seq<T>, c: seq<T>)
    ensures a + (b + c) == a + b + c
  {
  }

  lemma SliceOfSuffix<T>(s: seq<T>, m: nat, n: nat)
    requires m <= n <= |s|
    ensures s[m..][..n - m] == s[m..n] && s[m..][n - m..] == s[n..]
  {
  }

  lemma SlicesOfConcat<T>(a: seq<T>, b: seq<T>, i: nat, n: nat)
    requires i <= n <= |a|
    ensures (a + b)[..i] == a[..i] && (a + b)[i..n] == a[i..n] && (a + b)[n..] == a[n..] + b
  {
  }

  lemma CutThree<T>(a: seq<T>, b: seq<T>, c: seq<T>, d: seq<T>)
    ensures var s, at := a + b + c + d, |a| + |b|; s[..|a|] == a && s[|a|..at] == b && s[at..] == c + d
  {
  }

  /** What a function makes of the elements of a sequence, put together. */
  function Collect<T, U>(f: T -> seq<U>, s: seq<T>): seq<U> {
    if s == [] then [] else Collect(f, s[..|s| - 1]) + f(s[|s| - 1])
  }

  /** How much of that comes from before s[i]. */
  function CountBefore<T, U>(f: T -> seq<U>, s: seq<T>, i: nat): nat
    requires i <= |s|
  {
    |Collect(f, s[..i])|
  }

  lemma {:induction false} CollectPrefix<T, U>(f: T -> seq<U>, s: seq<T>, i: nat)
    requires i <= |s|
    ensures CountBefore(f, s, i) <= |Collect(f, s)| && Collect(f, s[..i]) == Collect(f, s)[..CountBefore(f, s, i)]
  {
    if i < |s| {
      var m := |s| - 1;
      assert s[..m][..i] == s[..i];
      CollectPrefix(f, s[..m], i);
    } else {
      assert s[..i] == s;
    }
  }

  /** What s[i] is made into comes next. */
  lemma CountNext<T, U>(f: T -> seq<U>, s: seq<T>, i: nat)
    requires i < |s|
    ensures var all, n := Collect(f, s), CountBefore(f, s, i);
            CountBefore(f, s, i + 1) == n + |f(s[i])| <= |all| && all[n..n + |f(s[i])|] == f(s[i])
  {
    CollectPrefix(f, s, i);
    CollectPrefix(f, s, i + 1);
    assert s[..i + 1][..i] == s[..i];
    var all, n, next := Collect(f, s), CountBefore(f, s, i), CountBefore(f, s, i + 1);
    assert all[..next] == all[..n] + f(s[i]);
    assert all[n..next] == all[..next][n..];
  }

  lemma {:induction false} CountMonotone<T, U>(f: T -> seq<U>, s: seq<T>, i: nat, j: nat)
    requires i <= j <= |s|
    ensures CountBefore(f, s, i) <= CountBefore(f, s, j)
  {
    if i < j {
      CountNext(f, s, j - 1);
      CountMonotone(f, s, i, j - 1);
    }
  }
}
