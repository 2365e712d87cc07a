/** The deck of internal/doors/cards/cards.go: 52 cards and the Fisher-Yates shuffle.

    The random number generator is an input: the sequence of values its calls return. */
module Cards {
  import opened Common

  datatype Suit = Clubs | Diamonds | Hearts | Spades

  type Rank = r: int | 2 <= r <= 14 witness 2

  const TEN: Rank := 10
  const JACK: Rank := 11
  const QUEEN: Rank := 12
  const KING: Rank := 13
  const ACE: Rank := 14

  datatype Card = Card(rank: Rank, suit: Suit)

  const SUITS: seq<Suit> := [Clubs, Diamonds, Hearts, Spades]

  /** The ordered deck, suit by suit. */
  function FullDeck(): seq<Card> {
    seq(52, i requires 0 <= i < 52 => Card(2 + i % 13, SUITS[i / 13]))
  }

  function SuitIndex(s: Suit): nat {
    match s case Clubs => 0 case Diamonds => 1 case Hearts => 2 case Spades => 3
  }

  lemma DistinctCount<T>(s: seq<T>, x: T)
    requires Distinct(s)
    ensures multiset(s)[x] == if x in s then 1 else 0
  {
    if s != [] {
      var last := |s| - 1;
      assert s == s[..last] + [s[last]];
      DistinctCount(s[..last], x);
    }
  }

  /** The full deck holds every card exactly once. */
  lemma EveryCardOnce(c: Card)
    ensures multiset(FullDeck())[c] == 1
    ensures |FullDeck()| == 52 && Distinct(FullDeck())
    ensures FullDeck()[(match c.suit case Clubs => 0 case Diamonds => 13 case Hearts => 26 case Spades => 39) + c.rank - 2] == c
  {
    var d := FullDeck();
    assert d[13 * SuitIndex(c.suit) + (c.rank - 2)] == c;
    DistinctCount(d, c);
  }

  method NewDeck() returns (deck: array<Card>)
    ensures fresh(deck) && deck[..] == FullDeck()
  {
    var cards: seq<Card> := [];
    for s := 0 to 4
      invariant |cards| == 13 * s
      invariant forall i :: 0 <= i < |cards| ==> cards[i] == FullDeck()[i]
    {
      for r := 2 to 15
        invariant |cards| == 13 * s + r - 2
        invariant forall i :: 0 <= i < |cards| ==> cards[i] == FullDeck()[i]
      {
        cards := cards + [Card(r, SUITS[s])];
      }
    }
    deck := new Card[52](i requires 0 <= i < 52 => cards[i]);
  }

  // ----- Shuffle -----

  /** What the generator can return to a shuffle of n cards: Intn(n), Intn(n - 1), ..., Intn(2). */
  predicate ValidDraws(draws: seq<nat>, n: nat) {
    |draws| == (if n == 0 then 0 else n - 1) && forall k :: 0 <= k < |draws| ==> draws[k] < n - k
  }

  function Swap<T>(s: seq<T>, i: nat, j: nat): seq<T>
    requires i < |s| && j < |s|
  {
    s[i := s[j]][j := s[i]]
  }

  /** The result of the loop: put the drawn card last, shuffle the rest. */
  function Shuffled<T>(s: seq<T>, draws: seq<nat>): (r: seq<T>)
    requires ValidDraws(draws, |s|)
    ensures |r| == |s|
    decreases |s|
  {
    if |s| <= 1 then s
    else
      var t := Swap(s, |s| - 1, draws[0]);
      Shuffled(t[..|s| - 1], draws[1..]) + [t[|s| - 1]]
  }

  /** In the loop: the draws that are left still shuffle the front, and the back is final. */
  ghost predicate ToShuffle<T>(s: seq<T>, i: int, draws: seq<nat>, result: seq<T>) {
    && 0 <= i < |s| && ValidDraws(draws, |s|) && ValidDraws(draws[|s| - 1 - i..], i + 1)
    && result == Shuffled(s[..i + 1], draws[|s| - 1 - i..]) + s[i + 1..]
  }

  lemma ShuffleBegins<T>(s: seq<T>, draws: seq<nat>)
    requires s != [] && ValidDraws(draws, |s|)
    ensures ToShuffle(s, |s| - 1, draws, Shuffled(s, draws))
  {
    assert s[..|s|] == s && draws[0..] == draws;
  }

  /** One swap of the loop. */
  lemma ShuffleStep<T>(s: seq<T>, i: nat, draws: seq<nat>, result: seq<T>)
    requires i > 0 && ToShuffle(s, i, draws, result)
    ensures draws[|s| - 1 - i] <= i && ToShuffle(Swap(s, i, draws[|s| - 1 - i]), i - 1, draws, result)
  {
    var rest := draws[|s| - 1 - i..];
    assert rest[1..] == draws[|s| - i..];
    var t := Swap(s, i, rest[0]);
    assert Swap(s[..i + 1], i, rest[0]) == t[..i + 1];
    assert t[..i + 1][..i] == t[..i];
    assert t[i..] == [t[i]] + s[i + 1..];
  }

  lemma ShuffleEnds<T>(s: seq<T>, draws: seq<nat>, result: seq<T>)
    requires ToShuffle(s, 0, draws, result)
    ensures s == result
  {
    assert Shuffled(s[..1], draws[|s| - 1..]) == s[..1];
  }

  method Shuffle<T>(deck: array<T>, draws: seq<nat>)
    requires ValidDraws(draws, deck.Length)
    modifies deck
    ensures deck[..] == Shuffled(old(deck[..]), draws)
  {
    ghost var result := Shuffled(deck[..], draws);
    var i := deck.Length - 1;
    if i >= 0 { ShuffleBegins(deck[..], draws); }
    while i > 0
      invariant -1 <= i < deck.Length
      invariant if i >= 0 then ToShuffle(deck[..], i, draws, result) else deck[..] == result
    {
      ghost var before := deck[..];
      ShuffleStep(before, i, draws, result);
      var j := draws[deck.Length - 1 - i];
      deck[i], deck[j] := deck[j], deck[i];
      assert deck[..] == Swap(before, i, j);
      i := i - 1;
    }
    if i == 0 { ShuffleEnds(deck[..], draws, result); }
  }

  lemma SwapIsPermutation<T>(s: seq<T>, i: nat, j: nat)
    requires i < |s| && j < |s|
    ensures multiset(Swap(s, i, j)) == multiset(s)
  {
  }

  /** No card is lost or duplicated. */
  lemma {:induction false} ShuffleIsPermutation<T>(s: seq<T>, draws: seq<nat>)
    requires ValidDraws(draws, |s|)
    ensures multiset(Shuffled(s, draws)) == multiset(s)
    decreases |s|
  {
    if |s| > 1 {
      var t := Swap(s, |s| - 1, draws[0]);
      SwapIsPermutation(s, |s| - 1, draws[0]);
      ShuffleIsPermutation(t[..|s| - 1], draws[1..]);
      assert t == t[..|s| - 1] + [t[|s| - 1]];
    }
  }

  /** The last card tells the first choice, the others the rest of the choices. */
  lemma ShuffledSplits<T>(s: seq<T>, d: seq<nat>)
    requires |s| > 1 && ValidDraws(d, |s|)
    ensures Shuffled(s, d)[|s| - 1] == s[d[0]]
    ensures Shuffled(s, d)[..|s| - 1] == Shuffled(Swap(s, |s| - 1, d[0])[..|s| - 1], d[1..])
  {
  }

  lemma SwapKeepsDistinct<T>(s: seq<T>, j: nat)
    requires Distinct(s) && j < |s|
    ensures Distinct(Swap(s, |s| - 1, j)[..|s| - 1])
  {
  }

  /** Different choices give different orders. */
  lemma {:induction false} ShuffleIsInjective<T>(s: seq<T>, d: seq<nat>, e: seq<nat>)
    requires Distinct(s) && ValidDraws(d, |s|) && ValidDraws(e, |s|)
    requires Shuffled(s, d) == Shuffled(s, e)
    ensures d == e
    decreases |s|
  {
    if |s| > 1 {
      ShuffledSplits(s, d);
      ShuffledSplits(s, e);
      assert d[0] == e[0];
      SwapKeepsDistinct(s, d[0]);
      ShuffleIsInjective(Swap(s, |s| - 1, d[0])[..|s| - 1], d[1..], e[1..]);
      assert d == [d[0]] + d[1..] && e == [e[0]] + e[1..];
    }
  }

  lemma InitIsPermutation<T>(u: seq<T>, t: seq<T>)
    requires |u| == |t| > 0 && u[|u| - 1] == t[|t| - 1] && multiset(u) == multiset(t)
    ensures multiset(u[..|u| - 1]) == multiset(t[..|t| - 1])
  {
    var n := |u| - 1;
    assert u == u[..n] + [u[n]] && t == t[..n] + [t[n]];
    assert multiset(u[..n]) == multiset(u) - multiset{u[n]};
    assert multiset(t[..n]) == multiset(t) - multiset{t[n]};
  }

  lemma IndexIn<T>(s: seq<T>, t: seq<T>, n: nat) returns (j: nat)
    requires multiset(s) == multiset(t) && n < |t|
    ensures j < |s| && s[j] == t[n]
  {
    assert t[n] in multiset(s);
    j :| 0 <= j < |s| && s[j] == t[n];
  }

  lemma AtMostOneOrder<T>(s: seq<T>, t: seq<T>)
    requires |s| <= 1 && multiset(s) == multiset(t)
    ensures s == t
  {
    assert |s| == |multiset(s)| == |t|;
    if |s| == 1 {
      assert s[0] in multiset(t);
    }
  }

  /** Every order can come out. */
  lemma {:induction false} ShuffleIsOnto<T>(s: seq<T>, t: seq<T>) returns (draws: seq<nat>)
    requires multiset(s) == multiset(t)
    ensures ValidDraws(draws, |s|) && Shuffled(s, draws) == t
    decreases |s|
  {
    if |s| <= 1 {
      draws := [];
      AtMostOneOrder(s, t);
    } else {
      SameLength(s, t);
      var n := |s| - 1;
      var j := IndexIn(s, t, n);
      var u := Swap(s, n, j);
      SwapIsPermutation(s, n, j);
      InitIsPermutation(u, t);
      var rest := ShuffleIsOnto(u[..n], t[..n]);
      draws := [j] + rest;
      OneMoreDraw(s, t, j, rest);
    }
  }

  lemma SameLength<T>(s: seq<T>, t: seq<T>)
    requires multiset(s) == multiset(t)
    ensures |s| == |t|
  {
    assert |s| == |multiset(s)|;
    assert |t| == |multiset(t)|;
  }

  /** The drawn card goes last and the shuffle of the others comes before it. */
  lemma OneMoreDraw<T>(s: seq<T>, t: seq<T>, j: nat, rest: seq<nat>)
    requires |s| == |t| > 1 && j < |s| && s[j] == t[|s| - 1] && ValidDraws(rest, |s| - 1)
    requires Shuffled(Swap(s, |s| - 1, j)[..|s| - 1], rest) == t[..|s| - 1]
    ensures ValidDraws([j] + rest, |s|) && Shuffled(s, [j] + rest) == t
  {
    var draws := [j] + rest;
    assert draws[1..] == rest;
    DrawsFrom(draws, |s|);
    assert t == t[..|s| - 1] + [t[|s| - 1]];
  }

  lemma DrawsFrom(draws: seq<nat>, n: nat)
    requires n > 1 && draws != [] && draws[0] < n && ValidDraws(draws[1..], n - 1)
    ensures ValidDraws(draws, n)
  {
    forall k | 0 < k < |draws| ensures draws[k] < n - k {
      assert draws[1..][k - 1] == draws[k];
    }
  }

  /** Shuffling distinct cards is a bijection between choice sequences and orders: every permutation
      comes from exactly one sequence of generator results, so uniform results shuffle uniformly. */
  lemma ShuffleIsBijection<T>(s: seq<T>, t: seq<T>)
    requires Distinct(s)
    ensures multiset(t) == multiset(s)
            <==> exists d :: ValidDraws(d, |s|) && Shuffled(s, d) == t
    ensures forall d, e :: ValidDraws(d, |s|) && ValidDraws(e, |s|) && Shuffled(s, d) == t && Shuffled(s, e) == t
              ==> d == e
  {
    if multiset(t) == multiset(s) {
      var d := ShuffleIsOnto(s, t);
    }
    forall d | ValidDraws(d, |s|) && Shuffled(s, d) == t ensures multiset(t) == multiset(s) {
      ShuffleIsPermutation(s, d);
    }
    forall d, e | ValidDraws(d, |s|) && ValidDraws(e, |s|) && Shuffled(s, d) == t && Shuffled(s, e) == t ensures d == e {
      ShuffleIsInjective(s, d, e);
    }
  }
}
