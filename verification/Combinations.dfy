/** The enumeration of k-subsets in internal/doors/cards/cards.go, with its cache. */
module Combinations {
  import opened Common

  /** All ways to extend `prefix` to k values with increasing values from [i, n), in the order the
      recursion visits them: first those that continue with i. */
  function Extend(n: nat, k: nat, i: nat, prefix: seq<nat>): seq<seq<nat>>
    requires |prefix| <= k && i <= n
    decreases n - i
  {
    if |prefix| == k then [prefix]
    else if i > n - (k - |prefix|) then []
    else Extend(n, k, i + 1, prefix + [i]) + Extend(n, k, i + 1, prefix)
  }

  function Choices(n: nat, k: nat): seq<seq<nat>> {
    Extend(n, k, 0, [])
  }

  /** A strictly increasing list of k indices below n. */
  ghost predicate IsChoice(n: nat, k: nat, c: seq<nat>) {
    |c| == k && Increasing(c) && forall j :: 0 <= j < k ==> c[j] < n
  }

  ghost predicate Increasing(c: seq<nat>) {
    forall a, b :: 0 <= a < b < |c| ==> c[a] < c[b]
  }

  ghost predicate Extends(n: nat, k: nat, i: nat, prefix: seq<nat>, c: seq<nat>) {
    && |c| == k && prefix <= c
    && (forall a, b :: |prefix| <= a < b < k ==> c[a] < c[b])
    && (forall j :: |prefix| <= j < k ==> i <= c[j] < n)
  }

  ghost predicate LexLess(c: seq<nat>, d: seq<nat>) {
    exists j :: LexLessAt(c, d, j)
  }

  ghost predicate LexLessAt(c: seq<nat>, d: seq<nat>, j: nat) {
    j < |c| && j < |d| && c[..j] == d[..j] && c[j] < d[j]
  }

  function Binomial(n: nat, k: nat): nat {
    if k == 0 then 1 else if n == 0 then 0 else Binomial(n - 1, k - 1) + Binomial(n - 1, k)
  }

  lemma {:induction false} ExtendIsExact(n: nat, k: nat, i: nat, prefix: seq<nat>, c: seq<nat>)
    requires |prefix| <= k && i <= n
    ensures c in Extend(n, k, i, prefix) <==> Extends(n, k, i, prefix, c)
    decreases n - i
  {
    var d := |prefix|;
    if d == k {
      assert prefix <= c && |c| == k ==> c == prefix;
    } else if i > n - (k - d) {
      if Extends(n, k, i, prefix, c) {
        IncreasingSpread(c, d, k - 1);
      }
    } else {
      ExtendIsExact(n, k, i + 1, prefix + [i], c);
      ExtendIsExact(n, k, i + 1, prefix, c);
      if Extends(n, k, i, prefix, c) {
        assert c[..d + 1] == prefix + [c[d]];
        assert Extends(n, k, i + 1, if c[d] == i then prefix + [i] else prefix, c);
      }
      if Extends(n, k, i + 1, prefix + [i], c) {
        assert c[d] == (prefix + [i])[d] && prefix <= c;
      }
    }
  }

  lemma {:induction false} IncreasingSpread(c: seq<nat>, d: nat, b: nat)
    requires d <= b < |c| && forall a, b :: d <= a < b < |c| ==> c[a] < c[b]
    ensures c[b] - c[d] >= b - d
    decreases b
  {
    if d < b {
      IncreasingSpread(c, d, b - 1);
    }
  }

  /** The enumeration lists exactly the k-subsets of [0, n) ... */
  lemma ChoicesAreTheSubsets(n: nat, k: nat, c: seq<nat>)
    ensures c in Choices(n, k) <==> IsChoice(n, k, c)
  {
    ExtendIsExact(n, k, 0, [], c);
  }

  lemma {:induction false} ExtendIsSorted(n: nat, k: nat, i: nat, prefix: seq<nat>, a: nat, b: nat)
    requires |prefix| <= k && i <= n && a < b < |Extend(n, k, i, prefix)|
    ensures LexLess(Extend(n, k, i, prefix)[a], Extend(n, k, i, prefix)[b])
    decreases n - i
  {
    var with, without := Extend(n, k, i + 1, prefix + [i]), Extend(n, k, i + 1, prefix);
    var d := |prefix|;
    if b < |with| {
      ExtendIsSorted(n, k, i + 1, prefix + [i], a, b);
    } else if a >= |with| {
      ExtendIsSorted(n, k, i + 1, prefix, a - |with|, b - |with|);
    } else {
      var c, e := with[a], without[b - |with|];
      ExtendIsExact(n, k, i + 1, prefix + [i], c);
      ExtendIsExact(n, k, i + 1, prefix, e);
      assert c[d] == i && c[..d] == prefix == e[..d];
      assert LexLessAt(c, e, d);
    }
  }

  /** ... in strictly increasing lexicographic order, hence each of them once ... */
  lemma ChoicesAreSorted(n: nat, k: nat, a: nat, b: nat)
    requires a < b < |Choices(n, k)|
    ensures LexLess(Choices(n, k)[a], Choices(n, k)[b])
    ensures Choices(n, k)[a] != Choices(n, k)[b]
  {
    ExtendIsSorted(n, k, 0, [], a, b);
  }

  /** ... and there are n over k of them. */
  lemma {:induction false} ExtendCount(n: nat, k: nat, i: nat, prefix: seq<nat>)
    requires |prefix| <= k && i <= n
    ensures |Extend(n, k, i, prefix)| == Binomial(n - i, k - |prefix|)
    decreases n - i
  {
    if |prefix| < k {
      if i > n - (k - |prefix|) {
        NoSuchSubset(n - i, k - |prefix|);
      } else {
        ExtendCount(n, k, i + 1, prefix + [i]);
        ExtendCount(n, k, i + 1, prefix);
      }
    }
  }

  lemma {:induction false} NoSuchSubset(n: nat, k: nat)
    requires k > n
    ensures Binomial(n, k) == 0
  {
    if n > 0 {
      NoSuchSubset(n - 1, k - 1);
      NoSuchSubset(n - 1, k);
    }
  }

  /** One turn of the recursion's loop. */
  lemma ExtendStep(n: nat, k: nat, i: nat, prefix: seq<nat>, res: seq<seq<nat>>)
    requires |prefix| < k && i <= n - (k - |prefix|)
    ensures res + Extend(n, k, i, prefix) == res + Extend(n, k, i + 1, prefix + [i]) + Extend(n, k, i + 1, prefix)
  {
  }

  // ----- The cache -----

  type Cache = map<nat, seq<seq<nat>>>

  datatype Call = Call(n: nat, k: nat)

  /** What a call returns, and the cache after it: the size is not part of the key. */
  function Answer(cache: Cache, c: Call): seq<seq<nat>> {
    if c.n in cache then cache[c.n] else Choices(c.n, c.k)
  }

  function Filled(cache: Cache, c: Call): Cache {
    cache[c.n := Answer(cache, c)]
  }

  function AfterCalls(calls: seq<Call>): Cache {
    if calls == [] then map[] else Filled(AfterCalls(calls[..|calls| - 1]), calls[|calls| - 1])
  }

  /** The size asked for by the first call for n. */
  function FirstSize(calls: seq<Call>, n: nat): Option<nat> {
    if calls == [] then None
    else
      var (before, last) := (FirstSize(calls[..|calls| - 1], n), calls[|calls| - 1]);
      if before.None? && last.n == n then Some(last.k) else before
  }

  lemma {:induction false} CacheHoldsTheFirst(calls: seq<Call>, n: nat)
    ensures n in AfterCalls(calls) <==> FirstSize(calls, n).Some?
    ensures n in AfterCalls(calls) ==> AfterCalls(calls)[n] == Choices(n, FirstSize(calls, n).value)
  {
    if calls != [] {
      CacheHoldsTheFirst(calls[..|calls| - 1], n);
    }
  }

  /** The first k numbers are a choice when there are as many. */
  lemma FirstChoice(n: nat, k: nat) returns (c: seq<nat>)
    requires k <= n
    ensures c in Choices(n, k) && |c| == k
  {
    c := seq(k, i => i);
    ChoicesAreTheSubsets(n, k, c);
  }

  /** Different sizes have the same subsets only when they have none. */
  lemma SizesDiffer(n: nat, j: nat, k: nat)
    requires j != k
    ensures Choices(n, j) == Choices(n, k) <==> n < j && n < k
  {
    if j <= n {
      var c := FirstChoice(n, j);
      ChoicesAreTheSubsets(n, k, c);
    } else if k <= n {
      var c := FirstChoice(n, k);
      ChoicesAreTheSubsets(n, j, c);
    }
  }

  /** After any calls from an empty cache, a call gets the subsets of the size it asks for if and only if it is
      the first one for its n, or the first one asked for the same size, or neither size has any subset. */
  lemma CacheIgnoresTheSubsetSize(calls: seq<Call>, n: nat, k: nat)
    ensures var first := FirstSize(calls, n);
            Answer(AfterCalls(calls), Call(n, k)) == Choices(n, k)
            <==> first.None? || first.value == k || (n < first.value && n < k)
  {
    CacheHoldsTheFirst(calls, n);
    var first := FirstSize(calls, n);
    if first.Some? && first.value != k {
      SizesDiffer(n, first.value, k);
    }
  }

  /** Five of seven, then two of the same seven: the fives come back. */
  lemma AWrongSizeComesBack()
    ensures Answer(AfterCalls([Call(7, 5)]), Call(7, 2)) == Choices(7, 5) != Choices(7, 2)
  {
    var calls := [Call(7, 5)];
    assert calls[..0] == [];
    CacheHoldsTheFirst(calls, 7);
    SizesDiffer(7, 5, 2);
  }

  /** The package-level cache and the function that fills it.  Entries are keyed by n alone. */
  class Enumerator {
    var combosCache: Cache

    constructor ()
      ensures combosCache == map[]
    {
      combosCache := map[];
    }

    /** Every cached entry is the enumeration for subsets of size k. */
    ghost predicate CachedFor(k: nat)
      reads this
    {
      forall n :: n in combosCache ==> combosCache[n] == Choices(n, k)
    }

    method Combinations(n: nat, k: nat) returns (out: seq<seq<nat>>)
      modifies this
      ensures out == Answer(old(combosCache), Call(n, k)) && combosCache == Filled(old(combosCache), Call(n, k))
      ensures old(CachedFor(k)) ==> CachedFor(k) && out == Choices(n, k)
    {
      if n in combosCache {
        return combosCache[n];
      }
      var idx := new nat[k](_ => 0);
      out := Rec(n, k, 0, 0, idx, []);
      combosCache := combosCache[n := out];
    }

    static method Rec(n: nat, k: nat, start: nat, depth: nat, idx: array<nat>, out: seq<seq<nat>>)
      returns (res: seq<seq<nat>>)
      requires idx.Length == k && depth <= k && start <= n
      modifies idx
      ensures idx[..depth] == old(idx[..depth])
      ensures res == out + Extend(n, k, start, old(idx[..depth]))
      decreases k - depth
    {
      ghost var prefix := idx[..depth];
      if depth == k {
        assert idx[..] == prefix;
        return out + [idx[..]];
      }
      res := out;
      var i := start;
      ghost var all := out + Extend(n, k, start, prefix);
      while i <= n - (k - depth)
        invariant start <= i <= n
        invariant idx[..depth] == prefix
        invariant res + Extend(n, k, i, prefix) == all
      {
        idx[depth] := i;
        ghost var longer, before := prefix + [i], res;
        assert idx[..depth + 1] == longer;
        ExtendStep(n, k, i, prefix, before);
        res := Rec(n, k, i + 1, depth + 1, idx, res);
        assert res == before + Extend(n, k, i + 1, longer);
        assert longer[..depth] == prefix && idx[..depth] == idx[..depth + 1][..depth];
        i := i + 1;
      }
    }
  }

}
