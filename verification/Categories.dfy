/** The categories of internal/doors/cards/cards.go:82-92 from the lowest to the highest, each described for itself, and
    the proof that the evaluator ranks hands in that order. */
module Categories {
  import opened Cards
  import opened Common
  import opened Scores
  import opened HandEval
  import C = Combinations

  datatype Category =
    | HighCard | JacksOrBetter | TwoPair | ThreeOfAKind | Straight | Flush | FullHouse | FourOfAKind
    | StraightFlush | RoyalFlush

  const ORDER: seq<Category> := [HighCard, JacksOrBetter, TwoPair, ThreeOfAKind, Straight, Flush, FullHouse, FourOfAKind,
                                 StraightFlush, RoyalFlush]

  function Place(c: Category): (i: nat)
    ensures i < |ORDER| && ORDER[i] == c
  {
    match c
    case HighCard => 0 case JacksOrBetter => 1 case TwoPair => 2 case ThreeOfAKind => 3 case Straight => 4
    case Flush => 5 case FullHouse => 6 case FourOfAKind => 7 case StraightFlush => 8 case RoyalFlush => 9
  }

  /** What five different cards are. */
  ghost predicate Is(hand: seq<Card>, c: Category) {
    match c
    case RoyalFlush => OneSuit(hand) && HasRun(hand, 10)
    case StraightFlush => OneSuit(hand) && InARow(hand) && !HasRun(hand, 10)
    case FourOfAKind => exists r :: Count(hand, r) == 4
    case FullHouse => (exists r :: Count(hand, r) == 3) && (exists s :: Count(hand, s) == 2)
    case Flush => OneSuit(hand) && !InARow(hand)
    case Straight => InARow(hand) && !OneSuit(hand)
    case ThreeOfAKind => (exists r :: Count(hand, r) == 3) && forall s :: Count(hand, s) != 2
    case TwoPair => exists r, s :: r != s && Count(hand, r) == 2 && Count(hand, s) == 2
    case JacksOrBetter => exists r :: r >= 11 && OnlyPair(hand, r)
    case HighCard => !OneSuit(hand) && !InARow(hand)
                     && ((forall r :: Count(hand, r) <= 1) || (exists r :: r < 11 && OnlyPair(hand, r)))
  }

  ghost predicate OnlyPair(hand: seq<Card>, r: int) {
    Count(hand, r) == 2 && forall s :: s != r ==> Count(hand, s) <= 1
  }

  lemma CountOfDistinct(hand: seq<Card>, r: int)
    requires Distinct(Ranks(hand))
    ensures Count(hand, r) <= 1
  {
    DistinctCount(Ranks(hand), r);
  }

  lemma ConsecutiveIsDistinct(s: seq<int>)
    requires |s| == 5 && (Consecutive(s) || s == [2, 3, 4, 5, ACE])
    ensures Distinct(s)
  {
    if Consecutive(s) {
      assert s[1] == s[0] + 1 && s[2] == s[1] + 1 && s[3] == s[2] + 1 && s[4] == s[3] + 1;
    }
  }

  /** A run, and five different cards of one suit, have no rank twice. */
  lemma SpreadOut(hand: seq<Card>, r: int)
    requires |hand| == 5 && (InARow(hand) || (OneSuit(hand) && Distinct(hand)))
    ensures Count(hand, r) <= 1
  {
    if InARow(hand) {
      var s := Sorted(Ranks(hand));
      SortSorts(Ranks(hand));
      InARowWhenSorted(hand, s);
      ConsecutiveIsDistinct(s);
      DistinctCount(s, r);
    } else {
      forall i, j | 0 <= i < j < |hand| ensures Ranks(hand)[i] != Ranks(hand)[j] {
        assert hand[i] != hand[j] && hand[i].suit == hand[j].suit;
      }
      CountOfDistinct(hand, r);
    }
  }

  lemma InGroup(hand: seq<Card>, r: int, c: nat)
    requires c >= 1
    ensures r in Groups(hand, c) <==> Count(hand, r) == c
  {
    if Count(hand, r) == c {
      assert r in multiset(Ranks(hand));
    }
  }

  /** How many ranks occur `c` times. */
  lemma GroupSizes(hand: seq<Card>, c: nat)
    requires |hand| == 5 && c >= 2
    ensures |Groups(hand, c)| == 0 <==> forall r :: Count(hand, r) != c
    ensures c >= 3 ==> |Groups(hand, c)| <= 1
    ensures c == 2 ==> |Groups(hand, c)| <= 2
    ensures |Groups(hand, c)| >= 2 <==> exists r, s :: r != s && Count(hand, r) == c && Count(hand, s) == c
  {
    forall r ensures r in Groups(hand, c) <==> Count(hand, r) == c {
      InGroup(hand, r, c);
    }
    Cardinalities(Groups(hand, c));
    if c >= 3 {
      AtMostOne(hand, c);
    } else {
      AtMostTwoPairs(hand);
    }
  }

  lemma JacksAre(hand: seq<Card>)
    ensures (exists r :: r in Groups(hand, 2) && r >= JACK) <==> exists r :: r >= 11 && Count(hand, r) == 2
  {
    forall r ensures r in Groups(hand, 2) <==> Count(hand, r) == 2 {
      InGroup(hand, r, 2);
    }
  }

  /** Other ranks beside one that occurs often. */
  lemma Beside(hand: seq<Card>, r: int, s: int)
    requires |hand| == 5 && r != s
    ensures Count(hand, r) + Count(hand, s) <= 5
  {
    TwoCountsFit(hand, r, s);
  }

  lemma SpreadClass(hand: seq<Card>, c: Category)
    requires |hand| == 5 && Distinct(hand) && Is(hand, c) && (OneSuit(hand) || InARow(hand))
    requires c == RoyalFlush || c == StraightFlush || c == Flush || c == Straight
    ensures HandClass(hand) == Place(c)
  {
    forall r ensures Count(hand, r) <= 1 {
      SpreadOut(hand, r);
    }
    GroupSizes(hand, 4);
    GroupSizes(hand, 3);
    GroupSizes(hand, 2);
    assert HasRun(hand, TEN) ==> InARow(hand);
  }

  lemma NotSpread(hand: seq<Card>, r: int)
    requires |hand| == 5 && Distinct(hand) && Count(hand, r) >= 2
    ensures !OneSuit(hand) && !InARow(hand)
  {
    if OneSuit(hand) || InARow(hand) {
      SpreadOut(hand, r);
    }
  }

  lemma FourClass(hand: seq<Card>, r: int)
    requires |hand| == 5 && Distinct(hand) && Count(hand, r) == 4
    ensures HandClass(hand) == Place(FourOfAKind)
  {
    NotSpread(hand, r);
    GroupSizes(hand, 4);
    InGroup(hand, r, 4);
  }

  lemma ThreeClass(hand: seq<Card>, r: int)
    requires |hand| == 5 && Distinct(hand) && Count(hand, r) == 3
    ensures HandClass(hand) == Place(if exists s :: Count(hand, s) == 2 then FullHouse else ThreeOfAKind)
  {
    NotSpread(hand, r);
    forall s ensures Count(hand, s) != 4 {
      if s != r {
        Beside(hand, r, s);
      }
    }
    GroupSizes(hand, 4);
    GroupSizes(hand, 3);
    GroupSizes(hand, 2);
    forall s, t | Count(hand, s) == 2 && Count(hand, t) == 2 ensures s == t {
      OnePairBesideThree(hand, s, t, r);
    }
  }

  lemma PairClass(hand: seq<Card>, c: Category)
    requires |hand| == 5 && Distinct(hand) && Is(hand, c) && (c == TwoPair || c == JacksOrBetter)
    ensures HandClass(hand) == Place(c)
  {
    var r :| Count(hand, r) == 2 && (c == JacksOrBetter ==> r >= 11 && OnlyPair(hand, r))
             && (c == TwoPair ==> exists s :: s != r && Count(hand, s) == 2);
    NotSpread(hand, r);
    forall s ensures Count(hand, s) < 3 {
      NoThreeBeside(hand, c, r, s);
    }
    GroupSizes(hand, 4);
    GroupSizes(hand, 3);
    GroupSizes(hand, 2);
    JacksAre(hand);
  }

  lemma NoThreeBeside(hand: seq<Card>, c: Category, r: int, s: int)
    requires |hand| == 5 && Count(hand, r) == 2 && (c == JacksOrBetter ==> OnlyPair(hand, r))
    requires c == JacksOrBetter || exists t :: t != r && Count(hand, t) == 2
    ensures Count(hand, s) < 3
  {
    if c != JacksOrBetter && s != r {
      var t :| t != r && Count(hand, t) == 2;
      if s != t {
        CountsFit(hand, r, s, t);
      }
    }
  }

  lemma NothingClass(hand: seq<Card>)
    requires |hand| == 5 && Is(hand, HighCard)
    ensures HandClass(hand) == Place(HighCard)
  {
    forall r ensures Count(hand, r) <= 2 {
      if s :| s < 11 && OnlyPair(hand, s) {
      }
    }
    GroupSizes(hand, 4);
    GroupSizes(hand, 3);
    GroupSizes(hand, 2);
    JacksAre(hand);
    assert HasRun(hand, TEN) ==> InARow(hand);
  }

  /** The class of five different cards is the place of their category in the order. */
  lemma ClassIsPlace(hand: seq<Card>, c: Category)
    requires |hand| == 5 && Distinct(hand) && Is(hand, c)
    ensures HandClass(hand) == Place(c)
  {
    match c
    case FourOfAKind =>
      var r :| Count(hand, r) == 4;
      FourClass(hand, r);
    case FullHouse =>
      var r :| Count(hand, r) == 3;
      ThreeClass(hand, r);
    case ThreeOfAKind =>
      var r :| Count(hand, r) == 3;
      ThreeClass(hand, r);
    case TwoPair => PairClass(hand, c);
    case JacksOrBetter => PairClass(hand, c);
    case HighCard => NothingClass(hand);
    case _ => SpreadClass(hand, c);
  }

  /** Every five different cards have a category, and only one. */
  lemma OneCategory(hand: seq<Card>) returns (c: Category)
    requires |hand| == 5 && Distinct(hand)
    ensures Is(hand, c) && forall d :: Is(hand, d) ==> d == c
  {
    c := SomeCategory(hand);
    ClassIsPlace(hand, c);
    forall d | Is(hand, d) ensures d == c {
      ClassIsPlace(hand, d);
    }
  }

  lemma SomeCategory(hand: seq<Card>) returns (c: Category)
    requires |hand| == 5 && Distinct(hand)
    ensures Is(hand, c)
  {
    if OneSuit(hand) && InARow(hand) {
      c := if HasRun(hand, 10) then RoyalFlush else StraightFlush;
    } else if OneSuit(hand) {
      c := Flush;
    } else if InARow(hand) {
      c := Straight;
    } else {
      FourSuitsOnly(hand);
      c := ByCounts(hand);
    }
  }

  lemma ByCounts(hand: seq<Card>) returns (c: Category)
    requires |hand| == 5 && Groups(hand, 5) == {} && !OneSuit(hand) && !InARow(hand)
    ensures Is(hand, c)
  {
    forall r ensures Count(hand, r) <= 4 {
      AtMostFour(hand, r);
    }
    if r :| Count(hand, r) == 4 {
      c := FourOfAKind;
    } else if r :| Count(hand, r) == 3 {
      c := if exists s :: Count(hand, s) == 2 then FullHouse else ThreeOfAKind;
    } else if r :| Count(hand, r) == 2 {
      if s :| s != r && Count(hand, s) == 2 {
        c := TwoPair;
      } else {
        assert OnlyPair(hand, r);
        c := if r >= 11 then JacksOrBetter else HighCard;
      }
    } else {
      c := HighCard;
    }
  }

  lemma AtMostFour(hand: seq<Card>, r: int)
    requires |hand| == 5 && Groups(hand, 5) == {}
    ensures Count(hand, r) <= 4
  {
    InGroup(hand, r, 5);
    TwoCountsFit(hand, r, r + 1);
  }

  // ----- Hands of any size -----

  /** `idx` picks five of the hand that are of category `c`. */
  ghost predicate Holds(hand: seq<Card>, idx: seq<nat>, c: Category) {
    C.IsChoice(|hand|, 5, idx) && Is(Pick(hand, idx), c)
  }

  lemma PickIsDistinct(hand: seq<Card>, idx: seq<nat>)
    requires Distinct(hand) && C.IsChoice(|hand|, 5, idx)
    ensures Distinct(Pick(hand, idx)) && |Pick(hand, idx)| == 5
  {
    forall i, j | 0 <= i < j < 5 ensures Pick(hand, idx)[i] != Pick(hand, idx)[j] {
      assert idx[i] < idx[j];
    }
  }

  /** The best category among the fives of a hand is what the evaluator reports. */
  lemma BestCategory(hand: seq<Card>) returns (idx: seq<nat>, c: Category)
    requires |hand| >= 5 && Distinct(hand)
    ensures Holds(hand, idx, c) && Best(hand).rank == Place(c)
    ensures forall jdx, d :: Holds(hand, jdx, d) ==> Place(d) <= Place(c)
  {
    BestIsTheMaximum(hand);
    idx :| C.IsChoice(|hand|, 5, idx) && Value(Pick(hand, idx)) == Best(hand);
    PickIsDistinct(hand, idx);
    c := SomeCategory(Pick(hand, idx));
    ClassIsPlace(Pick(hand, idx), c);
    forall jdx, d | Holds(hand, jdx, d) ensures Place(d) <= Place(c) {
      PickIsDistinct(hand, jdx);
      ClassIsPlace(Pick(hand, jdx), d);
      assert !Beats(Value(Pick(hand, jdx)), Best(hand));
    }
  }

  /** Of two hands of different cards, one that holds five of a category outscores any that holds only lower ones:
      a straight beats three of a kind, a flush a straight, and so on along the order, whatever the ranks. */
  lemma HigherCategoryWins(x: seq<Card>, y: seq<Card>, idx: seq<nat>, c: Category)
    requires |x| >= 5 && |y| >= 5 && Distinct(x) && Distinct(y) && Holds(x, idx, c)
    requires forall jdx, d :: Holds(y, jdx, d) ==> Place(d) < Place(c)
    ensures Best(x).rank > Best(y).rank
  {
    var i, best := BestCategory(x);
    var j, other := BestCategory(y);
    assert Place(c) <= Place(best);
    assert Place(other) < Place(c);
  }

  /** Five cards against five. */
  lemma NeighboursAreOrdered(x: seq<Card>, y: seq<Card>, c: Category, d: Category)
    requires |x| == |y| == 5 && Distinct(x) && Distinct(y) && Is(x, c) && Is(y, d)
    ensures Best(x).rank > Best(y).rank <==> Place(c) > Place(d)
    ensures Best(x).rank == Best(y).rank <==> c == d
  {
    OnlyChoice(x);
    OnlyChoice(y);
    ClassIsPlace(x, c);
    ClassIsPlace(y, d);
    assert ORDER[Place(c)] == c && ORDER[Place(d)] == d;
  }
}
