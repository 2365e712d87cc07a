/** The poker evaluator of internal/doors/cards/cards.go: five-card categories, the packed tiebreak
    and the best five of any longer hand. */
module HandEval {
  import opened Cards
  import opened Common
  import opened RankCounts
  import opened Scores
  import C = Combinations

  type HandRank = r: int | 0 <= r <= 9

  const HIGH_CARD: HandRank := 0
  const JACKS_OR_BETTER: HandRank := 1
  const TWO_PAIR: HandRank := 2
  const THREE_OF_A_KIND: HandRank := 3
  const STRAIGHT: HandRank := 4
  const FLUSH: HandRank := 5
  const FULL_HOUSE: HandRank := 6
  const FOUR_OF_A_KIND: HandRank := 7
  const STRAIGHT_FLUSH: HandRank := 8
  const ROYAL_FLUSH: HandRank := 9

  // ----- Sorting ranks -----

  function Ranks(hand: seq<Card>): seq<int> {
    seq(|hand|, i requires 0 <= i < |hand| => hand[i].rank)
  }

  ghost predicate Ascending(s: seq<int>) {
    forall i, j :: 0 <= i < j < |s| ==> s[i] <= s[j]
  }

  function Insert(s: seq<int>, x: int): seq<int> {
    if s == [] then [x] else if x <= s[0] then [x] + s else [s[0]] + Insert(s[1..], x)
  }

  /** The library sort. */
  function Sorted(s: seq<int>): seq<int> {
    if s == [] then [] else Insert(Sorted(s[1..]), s[0])
  }

  lemma {:induction false} InsertAdds(s: seq<int>, x: int)
    ensures multiset(Insert(s, x)) == multiset(s) + multiset{x}
  {
    if s != [] && x > s[0] {
      InsertAdds(s[1..], x);
      assert s == [s[0]] + s[1..];
    }
  }

  lemma {:induction false} InsertSorts(s: seq<int>, x: int)
    requires Ascending(s)
    ensures Ascending(Insert(s, x))
    ensures forall i :: 0 <= i < |Insert(s, x)| ==> Insert(s, x)[i] >= if s == [] || x <= s[0] then x else s[0]
  {
    if s != [] && x > s[0] {
      InsertSorts(s[1..], x);
      var t := Insert(s[1..], x);
      assert forall i :: 0 <= i < |t| ==> t[i] >= s[0];
      assert Insert(s, x) == [s[0]] + t;
    }
  }

  lemma {:induction false} SortSorts(s: seq<int>)
    ensures multiset(Sorted(s)) == multiset(s) && Ascending(Sorted(s)) && |Sorted(s)| == |s|
  {
    if s != [] {
      SortSorts(s[1..]);
      InsertSorts(Sorted(s[1..]), s[0]);
      InsertAdds(Sorted(s[1..]), s[0]);
      assert s == [s[0]] + s[1..];
      SameLength(Sorted(s), s);
    }
  }

  lemma LeastFirst(s: seq<int>, t: seq<int>)
    requires Ascending(t) && multiset(s) == multiset(t) && s != [] && t != []
    ensures s[0] >= t[0]
  {
    assert s[0] in multiset(t);
  }

  lemma TailBag(s: seq<int>, t: seq<int>)
    requires s != [] && t != [] && s[0] == t[0] && multiset(s) == multiset(t)
    ensures multiset(s[1..]) == multiset(t[1..])
  {
    assert s == [s[0]] + s[1..] && t == [t[0]] + t[1..];
    assert multiset(s[1..]) == multiset(s) - multiset{s[0]};
    assert multiset(t[1..]) == multiset(t) - multiset{t[0]};
  }

  /** Two ascending lists of the same numbers are equal. */
  lemma {:induction false} SortedIsUnique(s: seq<int>, t: seq<int>)
    requires Ascending(s) && Ascending(t) && multiset(s) == multiset(t)
    ensures s == t
  {
    assert |s| == |multiset(s)| == |t|;
    if s != [] {
      LeastFirst(s, t);
      LeastFirst(t, s);
      TailBag(s, t);
      SortedIsUnique(s[1..], t[1..]);
    }
  }

  function Reverse(s: seq<int>): (r: seq<int>)
    ensures |r| == |s| && forall i :: 0 <= i < |s| ==> r[i] == s[|s| - 1 - i]
  {
    if s == [] then [] else Reverse(s[1..]) + [s[0]]
  }

  // ----- Five-card categories -----

  /** How often a rank occurs. */
  function Count(hand: seq<Card>, r: int): nat {
    multiset(Ranks(hand))[r]
  }

  /** The ranks that occur exactly `c` times. */
  function Groups(hand: seq<Card>, c: nat): set<int> {
    set r | r in Ranks(hand) && Count(hand, r) == c
  }

  predicate OneSuit(hand: seq<Card>) {
    forall i, j :: 0 <= i < j < |hand| ==> hand[i].suit == hand[j].suit
  }

  predicate HasRun(hand: seq<Card>, low: int) {
    forall r :: low <= r < low + 5 ==> r in Ranks(hand)
  }

  predicate IsWheel(hand: seq<Card>) {
    (forall r :: 2 <= r < 6 ==> r in Ranks(hand)) && ACE in Ranks(hand)
  }

  predicate InARow(hand: seq<Card>) {
    IsWheel(hand) || exists low :: 2 <= low <= 10 && HasRun(hand, low)
  }

  /** The order in which the categories are tried. */
  function Classify(flush: bool, straight: bool, tenLow: bool, quads: nat, trips: nat, pairs: nat, jacks: bool): HandRank {
    if flush && straight && tenLow then ROYAL_FLUSH
    else if flush && straight then STRAIGHT_FLUSH
    else if quads == 1 then FOUR_OF_A_KIND
    else if trips == 1 && pairs == 1 then FULL_HOUSE
    else if flush then FLUSH
    else if straight then STRAIGHT
    else if trips == 1 then THREE_OF_A_KIND
    else if pairs == 2 then TWO_PAIR
    else if pairs == 1 && jacks then JACKS_OR_BETTER
    else HIGH_CARD
  }

  /** What Evaluate answers, in terms of the ranks' multiplicities. */
  function HandClass(hand: seq<Card>): HandRank {
    if |hand| != 5 then HIGH_CARD
    else
      Classify(OneSuit(hand), InARow(hand), HasRun(hand, TEN), |Groups(hand, 4)|, |Groups(hand, 3)|,
               |Groups(hand, 2)|, exists r :: r in Groups(hand, 2) && r >= JACK)
  }

  /** The rule book: the requirement of each category, stated as "at least". */
  ghost predicate Meets(hand: seq<Card>, h: HandRank) {
    if h == ROYAL_FLUSH then OneSuit(hand) && HasRun(hand, TEN)
    else if h == STRAIGHT_FLUSH then OneSuit(hand) && InARow(hand)
    else if h == FOUR_OF_A_KIND then exists r :: Count(hand, r) >= 4
    else if h == FULL_HOUSE then exists r, s :: r != s && Count(hand, r) >= 3 && Count(hand, s) >= 2
    else if h == FLUSH then OneSuit(hand)
    else if h == STRAIGHT then InARow(hand)
    else if h == THREE_OF_A_KIND then exists r :: Count(hand, r) >= 3
    else if h == TWO_PAIR then exists r, s :: r != s && Count(hand, r) >= 2 && Count(hand, s) >= 2
    else if h == JACKS_OR_BETTER then exists r :: r >= JACK && Count(hand, r) >= 2
    else true
  }

  ghost predicate IsBestCategory(hand: seq<Card>, h: HandRank) {
    Meets(hand, h) && forall g: HandRank :: g > h ==> !Meets(hand, g)
  }

  lemma SubBag(s: seq<int>, m: multiset<int>)
    requires m <= multiset(s)
    ensures |m| <= |s|
  {
    assert multiset(s) == m + (multiset(s) - m);
  }

  /** Two or three ranks cannot use more cards than there are. */
  lemma CountsFit(hand: seq<Card>, r: int, s: int, t: int)
    requires r != s && s != t && r != t
    ensures Count(hand, r) + Count(hand, s) + Count(hand, t) <= |hand|
  {
    var m := multiset{}[r := Count(hand, r)][s := Count(hand, s)][t := Count(hand, t)];
    SubBag(Ranks(hand), m);
  }

  lemma Cardinalities<T>(s: set<T>)
    ensures |s| >= 1 <==> exists x :: x in s
    ensures |s| >= 2 <==> exists x, y :: x in s && y in s && x != y
    ensures |s| >= 3 <==> exists x, y, z :: x in s && y in s && z in s && x != y && y != z && x != z
  {
    if x :| x in s {
      assert s == {x} + (s - {x});
      if y :| y in s - {x} {
        assert s - {x} == {y} + (s - {x} - {y});
        if z :| z in s - {x} - {y} {
          assert s - {x} - {y} == {z} + (s - {x} - {y} - {z});
        }
      }
    }
  }

  lemma TwoCountsFit(hand: seq<Card>, r: int, s: int)
    requires r != s
    ensures Count(hand, r) + Count(hand, s) <= |hand|
  {
    CountsFit(hand, r, s, if r != 0 && s != 0 then 0 else if r != 1 && s != 1 then 1 else 2);
  }

  lemma AtMostOne(hand: seq<Card>, c: nat)
    requires |hand| == 5 && c >= 3
    ensures |Groups(hand, c)| <= 1
  {
    var g := Groups(hand, c);
    Cardinalities(g);
    if |g| >= 2 {
      var x, y :| x in g && y in g && x != y;
      TwoCountsFit(hand, x, y);
    }
  }

  lemma AtMostTwoPairs(hand: seq<Card>)
    requires |hand| == 5
    ensures |Groups(hand, 2)| <= 2
    ensures forall r, s, t :: Count(hand, t) >= 3 && r in Groups(hand, 2) && s in Groups(hand, 2) ==> r == s
  {
    var g := Groups(hand, 2);
    Cardinalities(g);
    if |g| >= 3 {
      var x, y, z :| x in g && y in g && z in g && x != y && y != z && x != z;
      CountsFit(hand, x, y, z);
    }
    forall r, s, t | Count(hand, t) >= 3 && r in g && s in g ensures r == s {
      OnePairBesideThree(hand, r, s, t);
    }
  }

  lemma OnePairBesideThree(hand: seq<Card>, r: int, s: int, t: int)
    requires |hand| == 5 && Count(hand, t) >= 3 && Count(hand, r) == 2 && Count(hand, s) == 2
    ensures r == s
  {
    if r != s {
      CountsFit(hand, r, s, t);
    }
  }

  /** A rank that occurs at least `c` times is in one of the groups c..5. */
  lemma InSomeGroup(hand: seq<Card>, r: int, c: nat)
    requires |hand| == 5 && c >= 1
    ensures Count(hand, r) >= c <==> exists d :: c <= d <= 5 && r in Groups(hand, d)
  {
    CountsFit(hand, r, r + 1, r + 2);
    if Count(hand, r) >= c {
      assert r in multiset(Ranks(hand));
      assert r in Groups(hand, Count(hand, r));
    }
  }

  /** No group of four or five: what the answer's class says about the counts. */
  lemma FourMeans(hand: seq<Card>)
    requires |hand| == 5 && Groups(hand, 5) == {}
    ensures Meets(hand, FOUR_OF_A_KIND) <==> |Groups(hand, 4)| == 1
  {
    AtMostOne(hand, 4);
    Cardinalities(Groups(hand, 4));
    forall r ensures Count(hand, r) >= 4 <==> r in Groups(hand, 4) {
      InSomeGroup(hand, r, 4);
    }
  }

  lemma ThreeMeans(hand: seq<Card>)
    requires |hand| == 5 && Groups(hand, 5) == {} && Groups(hand, 4) == {}
    ensures Meets(hand, THREE_OF_A_KIND) <==> |Groups(hand, 3)| == 1
    ensures Meets(hand, FULL_HOUSE) <==> |Groups(hand, 3)| == 1 && |Groups(hand, 2)| == 1
  {
    AtMostOne(hand, 3);
    AtMostTwoPairs(hand);
    Cardinalities(Groups(hand, 3));
    Cardinalities(Groups(hand, 2));
    forall r ensures Count(hand, r) >= 3 <==> r in Groups(hand, 3) {
      InSomeGroup(hand, r, 3);
    }
    forall r ensures Count(hand, r) >= 2 <==> r in Groups(hand, 3) || r in Groups(hand, 2) {
      InSomeGroup(hand, r, 2);
    }
  }

  lemma PairsMean(hand: seq<Card>)
    requires |hand| == 5 && Groups(hand, 5) == {} && Groups(hand, 4) == {} && Groups(hand, 3) == {}
    ensures Meets(hand, TWO_PAIR) <==> |Groups(hand, 2)| == 2
    ensures Meets(hand, JACKS_OR_BETTER) <==> exists r :: r in Groups(hand, 2) && r >= JACK
    ensures |Groups(hand, 2)| <= 2 && (Meets(hand, JACKS_OR_BETTER) ==> |Groups(hand, 2)| >= 1)
  {
    AtMostTwoPairs(hand);
    Cardinalities(Groups(hand, 2));
    forall r ensures Count(hand, r) >= 2 <==> r in Groups(hand, 2) {
      InSomeGroup(hand, r, 2);
    }
  }

  lemma OnlyOneGroup(hand: seq<Card>, r: int)
    requires |hand| == 5 && r in Groups(hand, 5)
    ensures HandClass(hand) <= FLUSH
  {
    forall s | s != r ensures s !in Ranks(hand) {
      TwoCountsFit(hand, r, s);
      assert s in Ranks(hand) ==> s in multiset(Ranks(hand));
    }
    forall c | 2 <= c <= 4 ensures Groups(hand, c) == {} {
    }
    assert !IsWheel(hand) by {
      assert 2 in Ranks(hand) && 3 in Ranks(hand) ==> false;
    }
    forall low ensures !HasRun(hand, low) {
      assert HasRun(hand, low) ==> low in Ranks(hand) && low + 1 in Ranks(hand);
    }
  }

  /** The classifier finds the strongest category of the rule book exactly for hands without five
      cards of one rank; distinct cards never have five, since there are four suits. */
  lemma ClassIsBest(hand: seq<Card>)
    requires |hand| == 5
    ensures IsBestCategory(hand, HandClass(hand)) <==> Groups(hand, 5) == {}
  {
    if r :| r in Groups(hand, 5) {
      assert Meets(hand, FOUR_OF_A_KIND);
      OnlyOneGroup(hand, r);
    } else {
      FourMeans(hand);
      if Groups(hand, 4) == {} {
        ThreeMeans(hand);
        if Groups(hand, 3) == {} {
          PairsMean(hand);
        }
      }
    }
  }

  /** Five equal ranks: four of a kind is met but not found. */
  lemma FiveAces() returns (hand: seq<Card>)
    ensures |hand| == 5 && ACE in Groups(hand, 5) && !IsBestCategory(hand, HandClass(hand))
  {
    var ace := Card(ACE, Spades);
    hand := [ace, ace, ace, ace, ace];
    assert Ranks(hand) == [ACE, ACE, ACE, ACE, ACE];
    ClassIsBest(hand);
  }

  lemma TwoShareASuit(hand: seq<Card>) returns (i: nat, j: nat)
    requires |hand| == 5
    ensures i < j < 5 && hand[i].suit == hand[j].suit
  {
    var a, b, c, d, e := hand[0].suit, hand[1].suit, hand[2].suit, hand[3].suit, hand[4].suit;
    assert a == b || a == c || a == d || a == e || b == c || b == d || b == e || c == d || c == e || d == e;
    i, j :| 0 <= i < j < 5 && hand[i].suit == hand[j].suit;
  }

  lemma AllOneRank(hand: seq<Card>, r: int, i: nat)
    requires |hand| == 5 && r in Groups(hand, 5) && i < 5
    ensures hand[i].rank == r
  {
    assert Ranks(hand)[i] in multiset(Ranks(hand));
    if hand[i].rank != r {
      TwoCountsFit(hand, r, hand[i].rank);
    }
  }

  /** Distinct cards cannot hold one rank five times. */
  lemma FourSuitsOnly(hand: seq<Card>)
    requires |hand| == 5 && Distinct(hand)
    ensures Groups(hand, 5) == {}
  {
    var i, j := TwoShareASuit(hand);
    if r :| r in Groups(hand, 5) {
      AllOneRank(hand, r, i);
      AllOneRank(hand, r, j);
    }
  }

  // ----- The Go code -----

  lemma RunOfFive(s: seq<int>, low: int)
    requires |s| == 5 && Ascending(s)
    requires forall r :: low <= r < low + 5 ==> r in s
    ensures s == [low, low + 1, low + 2, low + 3, low + 4]
  {
    assert low in s && low + 1 in s && low + 2 in s && low + 3 in s && low + 4 in s;
    var a :| 0 <= a < 5 && s[a] == low;
    var b :| 0 <= b < 5 && s[b] == low + 1;
    var c :| 0 <= c < 5 && s[c] == low + 2;
    var d :| 0 <= d < 5 && s[d] == low + 3;
    var e :| 0 <= e < 5 && s[e] == low + 4;
    assert a < b < c < d < e;
  }

  lemma SortKeepsMembers(s: seq<int>, r: int)
    ensures r in Sorted(s) <==> r in s
  {
    SortSorts(s);
    assert r in Sorted(s) <==> r in multiset(Sorted(s));
    assert r in s <==> r in multiset(s);
  }

  predicate Consecutive(s: seq<int>) {
    forall i :: 1 <= i < |s| ==> s[i] == s[i - 1] + 1
  }

  /** A run of five starting at `low` is what the sorted, consecutive list from `low` looks like. */
  lemma RunsAreConsecutive(hand: seq<Card>, s: seq<int>, low: int)
    requires |hand| == 5 && s == Sorted(Ranks(hand)) && |s| == 5
    ensures HasRun(hand, low) <==> s[0] == low && Consecutive(s)
  {
    SortSorts(Ranks(hand));
    if HasRun(hand, low) {
      forall r | low <= r < low + 5 ensures r in s {
        SortKeepsMembers(Ranks(hand), r);
      }
      RunOfFive(s, low);
    } else if s[0] == low && Consecutive(s) {
      forall r | low <= r < low + 5 ensures r in Ranks(hand) {
        assert s[1] == low + 1 && s[2] == low + 2 && s[3] == low + 3 && s[4] == low + 4;
        assert s[r - low] == r;
        SortKeepsMembers(Ranks(hand), r);
      }
    }
  }

  lemma WheelIsSorted(hand: seq<Card>, s: seq<int>)
    requires |hand| == 5 && s == Sorted(Ranks(hand)) && |s| == 5
    ensures IsWheel(hand) <==> s == [2, 3, 4, 5, ACE]
  {
    SortSorts(Ranks(hand));
    forall r ensures r in s <==> r in Ranks(hand) {
      SortKeepsMembers(Ranks(hand), r);
    }
    if IsWheel(hand) {
      assert 2 in s && 3 in s && 4 in s && 5 in s && ACE in s;
      WheelSorts(s);
    } else if s == [2, 3, 4, 5, ACE] {
      WheelHolds(s);
    }
  }

  lemma WheelHolds(s: seq<int>)
    requires s == [2, 3, 4, 5, ACE]
    ensures ACE in s && forall r :: 2 <= r < 6 ==> r in s
  {
    assert s[0] == 2 && s[1] == 3 && s[2] == 4 && s[3] == 5 && s[4] == ACE;
  }

  lemma InARowWhenSorted(hand: seq<Card>, s: seq<int>)
    requires |hand| == 5 && s == Sorted(Ranks(hand)) && |s| == 5
    ensures InARow(hand) <==> Consecutive(s) || s == [2, 3, 4, 5, ACE]
    ensures InARow(hand) && s[0] == TEN <==> HasRun(hand, TEN)
  {
    WheelIsSorted(hand, s);
    RunsAreConsecutive(hand, s, s[0]);
    RunsAreConsecutive(hand, s, TEN);
    forall low | HasRun(hand, low) ensures s[0] == low && Consecutive(s) {
      RunsAreConsecutive(hand, s, low);
    }
    SortKeepsMembers(Ranks(hand), s[0]);
    SortKeepsMembers(Ranks(hand), s[4]);
    assert s[0] in s && s[4] in s;
    if Consecutive(s) {
      assert s[1] == s[0] + 1 && s[2] == s[0] + 2 && s[3] == s[0] + 3 && s[4] == s[0] + 4;
      assert HasRun(hand, s[0]) && 2 <= s[0] <= 10;
    }
  }

  lemma WheelSorts(s: seq<int>)
    requires |s| == 5 && Ascending(s) && 2 in s && 3 in s && 4 in s && 5 in s && ACE in s
    ensures s == [2, 3, 4, 5, ACE]
  {
    var a :| 0 <= a < 5 && s[a] == 2;
    var b :| 0 <= b < 5 && s[b] == 3;
    var c :| 0 <= c < 5 && s[c] == 4;
    var d :| 0 <= d < 5 && s[d] == 5;
    var e :| 0 <= e < 5 && s[e] == ACE;
    assert a < b < c < d < e;
  }

  method IsStraight(ranks: seq<int>) returns (ok: bool)
    ensures ok <==> Consecutive(ranks)
  {
    var i := 1;
    while i < |ranks|
      invariant i >= 1 && forall j :: 1 <= j < i && j < |ranks| ==> ranks[j] == ranks[j - 1] + 1
    {
      if ranks[i] != ranks[i - 1] + 1 {
        return false;
      }
      i := i + 1;
    }
    return true;
  }

  method IsFlush(hand: seq<Card>) returns (flush: bool)
    requires |hand| == 5
    ensures flush <==> OneSuit(hand)
  {
    flush := true;
    var i := 1;
    while i < 5
      invariant 1 <= i <= 5
      invariant flush <==> forall j :: 1 <= j < i ==> hand[j].suit == hand[0].suit
    {
      if hand[i].suit != hand[0].suit {
        flush := false;
        break;
      }
      i := i + 1;
    }
  }

  lemma CountedIsGroups(hand: seq<Card>, ranks: seq<int>, counts: map<int, nat>, c: nat)
    requires ranks == Sorted(Ranks(hand))
    requires forall r :: r in counts <==> r in ranks
    requires forall r :: r in counts ==> counts[r] == multiset(ranks)[r]
    ensures Counted(counts, counts.Keys, c) == Groups(hand, c)
  {
    SortSorts(Ranks(hand));
    forall r ensures r in Counted(counts, counts.Keys, c) <==> r in Groups(hand, c) {
      SortKeepsMembers(Ranks(hand), r);
    }
  }

  method Evaluate(hand: seq<Card>) returns (h: HandRank)
    ensures h == HandClass(hand)
  {
    if |hand| != 5 {
      return HIGH_CARD;
    }
    var ranks := Sorted(Ranks(hand));
    SortSorts(Ranks(hand));
    var flush := IsFlush(hand);
    var straight := IsStraight(ranks);
    var wheel := ranks[0] == 2 && ranks[1] == 3 && ranks[2] == 4 && ranks[3] == 5 && ranks[4] == ACE;
    if wheel {
      straight := true;
    }
    forall r | r in ranks ensures r > 0 {
      SortKeepsMembers(Ranks(hand), r);
    }
    var counts := CountRanks(ranks);
    var pairs, trips, quads, pairHigh := TallyGroups(counts);
    ClassFromCounts(hand, ranks, counts, pairs, trips, quads, pairHigh);
    h := Verdict(flush, straight, ranks[0], pairs, trips, quads, pairHigh);
  }

  lemma ClassFromCounts(hand: seq<Card>, s: seq<int>, counts: map<int, nat>,
                        pairs: nat, trips: nat, quads: nat, pairHigh: int)
    requires |hand| == 5 && s == Sorted(Ranks(hand)) && |s| == 5
    requires forall r :: r in counts <==> r in s
    requires forall r :: r in counts ==> counts[r] == multiset(s)[r]
    requires Tallied(counts, counts.Keys, pairs, trips, quads, pairHigh)
    ensures var row := Consecutive(s) || (s[0] == 2 && s[1] == 3 && s[2] == 4 && s[3] == 5 && s[4] == ACE);
            HandClass(hand) == Classify(OneSuit(hand), row, row && s[0] == TEN, quads, trips, pairs, pairHigh >= JACK)
  {
    var row := RowFromSorted(hand, s);
    GroupsFromCounts(hand, s, counts, pairs, trips, quads, pairHigh);
    ClassFrom(hand, row, row && s[0] == TEN, quads, trips, pairs, pairHigh >= JACK);
  }

  lemma RowFromSorted(hand: seq<Card>, s: seq<int>) returns (row: bool)
    requires |hand| == 5 && s == Sorted(Ranks(hand)) && |s| == 5
    ensures row <==> Consecutive(s) || (s[0] == 2 && s[1] == 3 && s[2] == 4 && s[3] == 5 && s[4] == ACE)
    ensures (InARow(hand) <==> row) && (HasRun(hand, TEN) <==> row && s[0] == TEN)
  {
    row := Consecutive(s) || s == [2, 3, 4, 5, ACE];
    InARowWhenSorted(hand, s);
  }

  lemma ClassFrom(hand: seq<Card>, row: bool, tenLow: bool, quads: nat, trips: nat, pairs: nat, jacks: bool)
    requires |hand| == 5 && InARow(hand) == row && HasRun(hand, TEN) == tenLow
    requires |Groups(hand, 4)| == quads && |Groups(hand, 3)| == trips && |Groups(hand, 2)| == pairs
    requires (exists r :: r in Groups(hand, 2) && r >= JACK) == jacks
    ensures HandClass(hand) == Classify(OneSuit(hand), row, tenLow, quads, trips, pairs, jacks)
  {
  }

  lemma GroupsFromCounts(hand: seq<Card>, s: seq<int>, counts: map<int, nat>,
                        pairs: nat, trips: nat, quads: nat, pairHigh: int)
    requires s == Sorted(Ranks(hand))
    requires forall r :: r in counts <==> r in s
    requires forall r :: r in counts ==> counts[r] == multiset(s)[r]
    requires Tallied(counts, counts.Keys, pairs, trips, quads, pairHigh)
    ensures |Groups(hand, 4)| == quads && |Groups(hand, 3)| == trips && |Groups(hand, 2)| == pairs
    ensures (exists r :: r in Groups(hand, 2) && r >= JACK) <==> pairHigh >= JACK
  {
    CountedIsGroups(hand, s, counts, 4);
    CountedIsGroups(hand, s, counts, 3);
    CountedIsGroups(hand, s, counts, 2);
  }

  /** The final switch. */
  method Verdict(flush: bool, straight: bool, lowest: int, pairs: nat, trips: nat, quads: nat, pairHigh: int)
    returns (h: HandRank)
    ensures h == Classify(flush, straight, straight && lowest == TEN, quads, trips, pairs, pairHigh >= JACK)
  {
    if flush && straight && lowest == TEN {
      return ROYAL_FLUSH;
    } else if flush && straight {
      return STRAIGHT_FLUSH;
    } else if quads == 1 {
      return FOUR_OF_A_KIND;
    } else if trips == 1 && pairs == 1 {
      return FULL_HOUSE;
    } else if flush {
      return FLUSH;
    } else if straight {
      return STRAIGHT;
    } else if trips == 1 {
      return THREE_OF_A_KIND;
    } else if pairs == 2 {
      return TWO_PAIR;
    } else if pairs == 1 && pairHigh >= JACK {
      return JACKS_OR_BETTER;
    }
    return HIGH_CARD;
  }

  // ----- The packed tiebreak -----

  /** Base-16 digits, most significant first: each step is `tb<<4 | r`, which adds since r < 16. */
  function Pack(digits: seq<int>): int {
    if digits == [] then 0 else Pack(digits[..|digits| - 1]) * 16 + digits[|digits| - 1]
  }

  function TieBreak(hand: seq<Card>): int {
    Pack(Reverse(Sorted(Ranks(hand))))
  }

  ghost predicate LowerAt(s: seq<int>, t: seq<int>, j: nat) {
    j < |s| && j < |t| && s[..j] == t[..j] && s[j] < t[j]
  }

  lemma {:induction false} PackIsLexicographic(s: seq<int>, t: seq<int>)
    requires |s| == |t|
    requires forall i :: 0 <= i < |s| ==> 0 <= s[i] < 16 && 0 <= t[i] < 16
    ensures Pack(s) < Pack(t) <==> exists j: nat :: LowerAt(s, t, j)
    ensures Pack(s) == Pack(t) <==> s == t
  {
    if s != [] {
      var n := |s| - 1;
      PackIsLexicographic(s[..n], t[..n]);
      assert s == s[..n] + [s[n]] && t == t[..n] + [t[n]];
      forall j: nat ensures LowerAt(s, t, j)
        <==> LowerAt(s[..n], t[..n], j) || (j == n && s[..n] == t[..n] && s[n] < t[n])
      {
        if j < n {
          assert s[..n][..j] == s[..j] && t[..n][..j] == t[..j];
        }
      }
      if s[..n] == t[..n] && s[n] < t[n] {
        assert LowerAt(s, t, n);
      }
      if j: nat :| LowerAt(s[..n], t[..n], j) {
        assert LowerAt(s, t, j);
      }
    }
  }

  lemma {:induction false} PackIsPositive(s: seq<int>)
    requires forall i :: 0 <= i < |s| ==> s[i] > 0
    ensures Pack(s) >= 0 && (s != [] ==> Pack(s) > 0)
  {
    if s != [] {
      PackIsPositive(s[..|s| - 1]);
    }
  }

  lemma RanksInRange(hand: seq<Card>)
    ensures |Sorted(Ranks(hand))| == |hand|
    ensures forall i :: 0 <= i < |hand| ==> 2 <= Reverse(Sorted(Ranks(hand)))[i] <= 14
  {
    SortSorts(Ranks(hand));
    forall i | 0 <= i < |hand| ensures 2 <= Sorted(Ranks(hand))[i] <= 14 {
      SortKeepsMembers(Ranks(hand), Sorted(Ranks(hand))[i]);
    }
  }

  lemma TieBreakIsPositive(hand: seq<Card>)
    requires hand != []
    ensures TieBreak(hand) > 0
  {
    RanksInRange(hand);
    PackIsPositive(Reverse(Sorted(Ranks(hand))));
  }

  /** Comparing two packed scores with `>` compares the ranks, highest first. */
  lemma TieBreakComparesHighCardsFirst(a: seq<Card>, b: seq<Card>)
    requires |a| == |b|
    ensures TieBreak(a) < TieBreak(b)
            <==> exists j: nat :: LowerAt(Reverse(Sorted(Ranks(a))), Reverse(Sorted(Ranks(b))), j)
    ensures TieBreak(a) == TieBreak(b) <==> multiset(Ranks(a)) == multiset(Ranks(b))
  {
    RanksInRange(a);
    RanksInRange(b);
    PackIsLexicographic(Reverse(Sorted(Ranks(a))), Reverse(Sorted(Ranks(b))));
    SortsAgree(Ranks(a), Ranks(b));
  }

  lemma SortsAgree(s: seq<int>, t: seq<int>)
    requires |s| == |t|
    ensures Reverse(Sorted(s)) == Reverse(Sorted(t)) <==> multiset(s) == multiset(t)
  {
    SortSorts(s);
    SortSorts(t);
    if multiset(s) == multiset(t) {
      SortedIsUnique(Sorted(s), Sorted(t));
    } else if Reverse(Sorted(s)) == Reverse(Sorted(t)) {
      ReverseIsInjective(Sorted(s), Sorted(t));
    }
  }

  lemma ReverseIsInjective(s: seq<int>, t: seq<int>)
    requires Reverse(s) == Reverse(t)
    ensures s == t
  {
    assert |s| == |Reverse(s)| == |t|;
    forall i | 0 <= i < |s| ensures s[i] == t[i] {
      assert Reverse(s)[|s| - 1 - i] == Reverse(t)[|s| - 1 - i];
    }
  }

  method TiebreakOf(hand: seq<Card>) returns (tb: int)
    ensures tb == TieBreak(hand)
  {
    var ranks: seq<int> := [];
    for i := 0 to |hand|
      invariant ranks == Ranks(hand[..i])
    {
      ranks := ranks + [hand[i].rank];
      assert hand[..i + 1] == hand[..i] + [hand[i]];
    }
    assert hand[..|hand|] == hand;
    var sorted := Reverse(Sorted(ranks));
    tb := 0;
    for i := 0 to |sorted|
      invariant tb == Pack(sorted[..i])
    {
      tb := tb * 16 + sorted[i];
      assert sorted[..i + 1][..i] == sorted[..i];
    }
    assert sorted[..|sorted|] == sorted;
  }

  // ----- The best five of n cards -----

  function Pick(hand: seq<Card>, idx: seq<nat>): seq<Card>
    requires forall i :: 0 <= i < |idx| ==> idx[i] < |hand|
  {
    seq(|idx|, i requires 0 <= i < |idx| => hand[idx[i]])
  }

  function Value(five: seq<Card>): Score {
    Score(HandClass(five), TieBreak(five))
  }

  ghost predicate AllChoices(n: nat, cs: seq<seq<nat>>) {
    forall i :: 0 <= i < |cs| ==> C.IsChoice(n, 5, cs[i])
  }

  /** The value of every listed choice. */
  ghost function Values(hand: seq<Card>, cs: seq<seq<nat>>): seq<Score>
    requires AllChoices(|hand|, cs)
  {
    seq(|cs|, i requires 0 <= i < |cs| => Value(Pick(hand, cs[i])))
  }

  lemma ChoicesFit(n: nat)
    ensures AllChoices(n, C.Choices(n, 5))
  {
    forall i | 0 <= i < |C.Choices(n, 5)| ensures C.IsChoice(n, 5, C.Choices(n, 5)[i]) {
      C.ChoicesAreTheSubsets(n, 5, C.Choices(n, 5)[i]);
    }
  }

  ghost function AllValues(hand: seq<Card>): seq<Score> {
    ChoicesFit(|hand|);
    Values(hand, C.Choices(|hand|, 5))
  }

  /** What EvaluateBest answers for a hand of any size. */
  ghost function Best(hand: seq<Card>): Score {
    if |hand| < 5 then Score(HIGH_CARD, 0) else MaxScore(AllValues(hand))
  }

  lemma ValueIsPositive(five: seq<Card>)
    requires |five| == 5
    ensures Beats(Value(five), Score(HIGH_CARD, 0))
  {
    TieBreakIsPositive(five);
  }

  lemma ValuesArePositive(hand: seq<Card>, cs: seq<seq<nat>>)
    requires AllChoices(|hand|, cs)
    ensures AllPositive(Values(hand, cs))
  {
    forall i | 0 <= i < |cs| ensures Beats(Values(hand, cs)[i], Score(0, 0)) {
      ValueIsPositive(Pick(hand, cs[i]));
    }
  }

  lemma FirstFive(n: nat)
    requires n >= 5
    ensures C.IsChoice(n, 5, [0, 1, 2, 3, 4]) && C.Choices(n, 5) != []
  {
    var first: seq<nat> := [0, 1, 2, 3, 4];
    assert C.IsChoice(n, 5, first);
    C.ChoicesAreTheSubsets(n, 5, first);
  }

  /** The search result is the lexicographic maximum of (category, tiebreak) over all ways to choose
      five cards, and some five cards reach it. */
  lemma BestIsTheMaximum(hand: seq<Card>)
    requires |hand| >= 5
    ensures forall c :: C.IsChoice(|hand|, 5, c) ==> !Beats(Value(Pick(hand, c)), Best(hand))
    ensures exists c :: C.IsChoice(|hand|, 5, c) && Value(Pick(hand, c)) == Best(hand)
  {
    var n := |hand|;
    var cs := C.Choices(n, 5);
    ChoicesFit(n);
    forall c | C.IsChoice(n, 5, c) ensures !Beats(Value(Pick(hand, c)), Best(hand)) {
      C.ChoicesAreTheSubsets(n, 5, c);
      var i :| 0 <= i < |cs| && cs[i] == c;
      MaxIsMaximal(AllValues(hand), i);
    }
    FirstFive(n);
    ValuesArePositive(hand, cs);
    var i := MaxIsReached(AllValues(hand));
    assert C.IsChoice(n, 5, cs[i]);
  }

  /** Exactly five cards: there is one choice. */
  lemma OnlyChoice(hand: seq<Card>)
    requires |hand| == 5
    ensures C.Choices(5, 5) == [[0, 1, 2, 3, 4]]
    ensures AllValues(hand) == [Value(hand)] && Best(hand) == Value(hand)
    ensures IsFirstBest(AllValues(hand), 0)
    ensures C.IsChoice(5, 5, [0, 1, 2, 3, 4]) && Pick(hand, [0, 1, 2, 3, 4]) == hand
  {
    var all: seq<nat> := [0, 1, 2, 3, 4];
    OneChoiceOfFive();
    FirstFive(5);
    ChoicesFit(5);
    assert Pick(hand, all) == hand;
    assert AllValues(hand) == [Value(hand)];
    ValueIsPositive(hand);
    MaxOfOne(Value(hand));
  }

  lemma OneChoiceOfFive()
    ensures C.Choices(5, 5) == [[0, 1, 2, 3, 4]]
  {
    var all: seq<nat> := [0, 1, 2, 3, 4];
    C.ExtendCount(5, 5, 0, []);
    BinomialDiagonal(5);
    assert C.IsChoice(5, 5, all);
    C.ChoicesAreTheSubsets(5, 5, all);
  }

  lemma {:induction false} BinomialDiagonal(n: nat)
    ensures C.Binomial(n, n) == 1
  {
    if n > 0 {
      BinomialDiagonal(n - 1);
      C.NoSuchSubset(n - 1, n);
    }
  }

  lemma FirstBestIsAChoice(hand: seq<Card>, f: nat)
    requires |hand| >= 5 && IsFirstBest(AllValues(hand), f)
    ensures f < |C.Choices(|hand|, 5)| && C.IsChoice(|hand|, 5, C.Choices(|hand|, 5)[f])
    ensures Value(Pick(hand, C.Choices(|hand|, 5)[f])) == Best(hand)
  {
    ChoicesFit(|hand|);
  }

  /** The loop over all choices. */
  method Search(hand: seq<Card>, indexes: seq<seq<nat>>)
    returns (rank: HandRank, tiebreak: int, indices: seq<nat>, ghost f: nat)
    requires AllChoices(|hand|, indexes) && indexes != []
    ensures Score(rank, tiebreak) == MaxScore(Values(hand, indexes))
    ensures IsFirstBest(Values(hand, indexes), f) && indices == indexes[f]
  {
    rank, tiebreak, indices, f := HIGH_CARD, 0, [0, 1, 2, 3, 4], 0;
    ghost var values := Values(hand, indexes);
    ValuesArePositive(hand, indexes);
    for m := 0 to |indexes|
      invariant Score(rank, tiebreak) == MaxScore(values[..m])
      invariant m > 0 ==> IsFirstBest(values[..m], f) && indices == indexes[f]
    {
      var idx := indexes[m];
      var subset := Pick(hand, idx);
      var r := Evaluate(subset);
      var tb := TiebreakOf(subset);
      FirstBestNext(values, m, f);
      if r > rank || (r == rank && tb > tiebreak) {
        rank, tiebreak, indices, f := r, tb, idx, m;
      }
    }
    assert values[..|indexes|] == values;
  }

  /** The winning indices are the first choice, in lexicographic order, that reaches the maximum. */
  method EvaluateBestIndices(e: C.Enumerator, hand: seq<Card>)
    returns (rank: HandRank, tiebreak: int, indices: seq<nat>)
    requires e.CachedFor(5)
    modifies e
    ensures e.CachedFor(5)
    ensures Score(rank, tiebreak) == Best(hand)
    ensures |hand| < 5 ==> indices == []
    ensures |hand| >= 5 ==> C.IsChoice(|hand|, 5, indices) && Value(Pick(hand, indices)) == Score(rank, tiebreak)
    ensures |hand| >= 5 ==> exists f: nat :: IsFirstBest(AllValues(hand), f) && f < |C.Choices(|hand|, 5)|
                                        && C.Choices(|hand|, 5)[f] == indices
  {
    var n := |hand|;
    if n < 5 {
      return HIGH_CARD, 0, [];
    }
    ghost var f := 0;
    if n == 5 {
      OnlyChoice(hand);
      rank := Evaluate(hand);
      tiebreak := TiebreakOf(hand);
      indices := [0, 1, 2, 3, 4];
    } else {
      var indexes := e.Combinations(n, 5);
      ChoicesFit(n);
      FirstFive(n);
      rank, tiebreak, indices, f := Search(hand, indexes);
      FirstBestIsAChoice(hand, f);
    }
  }

  method EvaluateBest(e: C.Enumerator, hand: seq<Card>) returns (rank: HandRank, tiebreak: int)
    requires e.CachedFor(5)
    modifies e
    ensures e.CachedFor(5)
    ensures Score(rank, tiebreak) == Best(hand)
  {
    var indices;
    rank, tiebreak, indices := EvaluateBestIndices(e, hand);
  }
}
