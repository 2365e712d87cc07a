/** Single-deck blackjack (internal/doors/blackjack/blackjack.go): hand values, the player's three
    actions and the dealer's draw loop.

    A `Table` is one value of the Go struct; the functions on tables specify the methods of `Game`.
    `Draw` needs a non-empty deck, so every verified draw below is one that cannot run out. */
module Blackjack {
  import opened Cards

  datatype Outcome = InProgress | PlayerBust | DealerBust | PlayerWin | PlayerBlackjack | DealerWin | Push

  // ----- Hand values -----

  function LowPoints(c: Card): int {
    if c.rank == ACE then 1 else if c.rank >= JACK then 10 else c.rank
  }

  /** The hand total with every ace counted as 1. */
  function Hard(h: seq<Card>): int {
    if h == [] then 0 else Hard(h[..|h| - 1]) + LowPoints(h[|h| - 1])
  }

  function Aces(h: seq<Card>): nat {
    if h == [] then 0 else Aces(h[..|h| - 1]) + if h[|h| - 1].rank == ACE then 1 else 0
  }

  /** (total, soft) as the loops compute it. */
  function HandTotal(h: seq<Card>): (int, bool) {
    if Aces(h) > 0 && Hard(h) + 10 <= 21 then (Hard(h) + 10, true) else (Hard(h), false)
  }

  function Total(h: seq<Card>): int { HandTotal(h).0 }

  /** One way to count a hand: a number of points for each card, aces 1 or 11. */
  ghost predicate Counting(h: seq<Card>, points: seq<int>) {
    |points| == |h| && forall i :: 0 <= i < |h| ==> MayCount(h[i], points[i])
  }

  predicate MayCount(c: Card, p: int) {
    if c.rank == 14 then p == 1 || p == 11 else if 11 <= c.rank <= 13 then p == 10 else p == c.rank
  }

  function Sum(points: seq<int>): int {
    if points == [] then 0 else Sum(points[..|points| - 1]) + points[|points| - 1]
  }

  ghost predicate HighAceAt(h: seq<Card>, points: seq<int>, i: nat) {
    i < |h| && i < |points| && h[i].rank == ACE && points[i] == 11
  }

  function HighAces(h: seq<Card>, points: seq<int>): nat
    requires |h| == |points|
  {
    if h == [] then 0
    else HighAces(h[..|h| - 1], points[..|h| - 1]) + if h[|h| - 1].rank == ACE && points[|h| - 1] == 11 then 1 else 0
  }

  lemma {:induction false} CountingSum(h: seq<Card>, points: seq<int>)
    requires Counting(h, points)
    ensures Sum(points) == Hard(h) + 10 * HighAces(h, points)
    ensures HighAces(h, points) <= Aces(h)
    ensures HighAces(h, points) > 0 <==> exists i: nat :: HighAceAt(h, points, i)
  {
    if h != [] {
      var n := |h| - 1;
      CountingSum(h[..n], points[..n]);
      forall i: nat ensures HighAceAt(h, points, i)
                       <==> HighAceAt(h[..n], points[..n], i) || (i == n && h[n].rank == ACE && points[n] == 11)
      {
      }
      if h[n].rank == ACE && points[n] == 11 {
        assert HighAceAt(h, points, n);
      }
      if i: nat :| HighAceAt(h[..n], points[..n], i) {
        assert HighAceAt(h, points, i);
      }
    }
  }

  /** The counting with exactly `high` aces at 11. */
  lemma {:induction false} CountingWith(h: seq<Card>, high: nat) returns (points: seq<int>)
    requires high <= Aces(h)
    ensures Counting(h, points) && Sum(points) == Hard(h) + 10 * high
  {
    if h == [] {
      points := [];
    } else {
      var n := |h| - 1;
      var ace := h[n].rank == ACE && high > 0;
      var p := if ace then 11 else LowPoints(h[n]);
      var rest := CountingWith(h[..n], if ace then high - 1 else high);
      points := rest + [p];
      assert points[..n] == rest;
    }
  }

  lemma {:induction false} CardsCountAtLeastOne(h: seq<Card>)
    ensures Hard(h) >= |h| && Hard(h) >= Aces(h)
  {
    if h != [] {
      CardsCountAtLeastOne(h[..|h| - 1]);
    }
  }

  /** The value is the largest total of at most 21 over all ways to count the aces, or the smallest
      total if none fits; `soft` says that this counting has an ace at 11. */
  lemma ValueIsBest(h: seq<Card>)
    ensures exists p :: Counting(h, p) && Sum(p) == Total(h)
    ensures forall p :: Counting(h, p) && Sum(p) <= 21 ==> Sum(p) <= Total(h) <= 21
    ensures forall p :: Counting(h, p) && Total(h) > 21 ==> Sum(p) >= Total(h)
    ensures forall p :: Counting(h, p) && Sum(p) == Total(h)
              ==> (HandTotal(h).1 <==> exists i: nat :: HighAceAt(h, p, i))
  {
    CardsCountAtLeastOne(h);
    var q := CountingWith(h, if HandTotal(h).1 then 1 else 0);
    forall p | Counting(h, p)
      ensures Sum(p) == Hard(h) + 10 * HighAces(h, p) && HighAces(h, p) <= Aces(h)
      ensures HighAces(h, p) > 0 <==> exists i: nat :: HighAceAt(h, p, i)
    {
      CountingSum(h, p);
    }
  }

  method Value(h: seq<Card>) returns (total: int, soft: bool)
    ensures (total, soft) == HandTotal(h)
  {
    total := 0;
    var aces := 0;
    for i := 0 to |h|
      invariant aces == Aces(h[..i]) && total == Hard(h[..i]) + 10 * aces
    {
      assert h[..i + 1][..i] == h[..i];
      var c := h[i];
      if c.rank == ACE {
        total := total + 11;
        aces := aces + 1;
      } else if c.rank == JACK || c.rank == QUEEN || c.rank == KING {
        total := total + 10;
      } else {
        total := total + c.rank;
      }
    }
    assert h[..|h|] == h;
    CardsCountAtLeastOne(h);
    while total > 21 && aces > 0
      invariant 0 <= aces <= Aces(h) && total == Hard(h) + 10 * aces
      invariant aces < Aces(h) ==> Hard(h) + 10 * (aces + 1) > 21
    {
      total := total - 10;
      aces := aces - 1;
    }
    soft := aces > 0;
  }

  // ----- The table -----

  datatype Table = Table(deck: seq<Card>, player: seq<Card>, dealer: seq<Card>,
                         doubled: bool, finished: bool, hole: bool, outcome: Outcome)

  predicate DealerDraws(dealer: seq<Card>) {
    Total(dealer) < 17 || HandTotal(dealer) == (17, true)
  }

  /** All the cards on the table, wherever they are. */
  ghost function Bag(t: Table): multiset<Card> {
    multiset(t.deck) + multiset(t.player) + multiset(t.dealer)
  }

  ghost predicate FiftyTwo(t: Table) {
    |t.deck| + |t.player| + |t.dealer| == 52
  }

  /** What the outcome means for the cards on the table. */
  predicate Settled(t: Table) {
    match t.outcome
    case InProgress => !t.finished
    case PlayerBust => t.finished && Total(t.player) > 21
    case PlayerBlackjack => t.finished && |t.player| == 2 && Total(t.player) == 21 && Total(t.dealer) != 21
    case DealerBust => t.finished && Total(t.player) <= 21 < Total(t.dealer)
    case PlayerWin => t.finished && DealerStood(t) && Total(t.dealer) < Total(t.player) <= 21
    case DealerWin => t.finished && DealerStood(t) && Total(t.player) < Total(t.dealer)
    case Push => t.finished && DealerStood(t) && Total(t.player) == Total(t.dealer)
  }

  /** The dealer has 17 to 21 and not a soft 17. */
  predicate DealerStood(t: Table) {
    17 <= Total(t.dealer) <= 21 && HandTotal(t.dealer) != (17, true)
  }

  ghost predicate Good(t: Table) {
    && FiftyTwo(t) && Settled(t)
    && |t.player| >= 2 && |t.dealer| >= 2
    && (!t.finished ==> t.hole && !t.doubled && |t.dealer| == 2 && Total(t.player) <= 21)
    && (t.finished ==> !t.hole)
  }

  /** Every card counts at least one low point, so at most 48 cards are out and another can be drawn. */
  lemma EnoughCards(t: Table)
    requires FiftyTwo(t)
    requires Hard(t.player) <= 31 && (Hard(t.dealer) <= 17 || |t.dealer| == 2)
    ensures |t.deck| > 0
  {
    CardsCountAtLeastOne(t.player);
    CardsCountAtLeastOne(t.dealer);
  }

  ghost function PlayerDraws(t: Table): Table
    requires |t.deck| > 0
  {
    t.(player := t.player + [t.deck[0]], deck := t.deck[1..])
  }

  ghost function Bust(t: Table): Table {
    t.(hole := false, outcome := PlayerBust, finished := true)
  }

  ghost function DealerDraw(t: Table): Table
    requires |t.deck| > 0
  {
    t.(dealer := t.dealer + [t.deck[0]], deck := t.deck[1..])
  }

  lemma DealerCanDraw(t: Table)
    requires FiftyTwo(t) && Hard(t.player) <= 31 && DealerDraws(t.dealer)
    ensures |t.deck| > 0 && FiftyTwo(DealerDraw(t))
  {
    EnoughCards(t);
  }

  /** The dealer's loop. */
  ghost function DealerRuns(t: Table): (r: Table)
    requires FiftyTwo(t) && Hard(t.player) <= 31
    ensures FiftyTwo(r) && r == t.(deck := r.deck, dealer := r.dealer)
    ensures |t.dealer| <= |r.dealer| && !DealerDraws(r.dealer)
    decreases |t.deck|
  {
    if DealerDraws(t.dealer) then
      DealerCanDraw(t);
      DealerRuns(DealerDraw(t))
    else t
  }

  /** `hand` with the next cards of the deck in order is `r`, and `rest` is left of the deck. */
  predicate TookTop(hand: seq<Card>, deck: seq<Card>, r: seq<Card>, rest: seq<Card>) {
    |hand| <= |r| <= |hand| + |deck| && r == hand + deck[..|r| - |hand|] && rest == deck[|r| - |hand|..]
  }

  lemma TookOneMore(hand: seq<Card>, deck: seq<Card>, r: seq<Card>, rest: seq<Card>)
    requires deck != [] && TookTop(hand + [deck[0]], deck[1..], r, rest)
    ensures TookTop(hand, deck, r, rest)
  {
    var k := |r| - |hand|;
    assert deck[..k] == [deck[0]] + deck[1..][..k - 1];
  }

  /** The dealer takes cards from the top of the deck ... */
  lemma {:induction false} DealerTakesInOrder(t: Table)
    requires FiftyTwo(t) && Hard(t.player) <= 31
    ensures TookTop(t.dealer, t.deck, DealerRuns(t).dealer, DealerRuns(t).deck)
    decreases |t.deck|
  {
    if DealerDraws(t.dealer) {
      DealerCanDraw(t);
      DealerTakesInOrder(DealerDraw(t));
      TookOneMore(t.dealer, t.deck, DealerRuns(t).dealer, DealerRuns(t).deck);
    }
  }

  /** ... and only when the rule says so. */
  lemma {:induction false} DealerFollowsTheRule(t: Table, n: nat)
    requires FiftyTwo(t) && Hard(t.player) <= 31
    requires |t.dealer| <= n < |DealerRuns(t).dealer|
    ensures DealerDraws(DealerRuns(t).dealer[..n])
    decreases |t.deck|
  {
    if n == |t.dealer| {
      DealerTakesInOrder(t);
      assert DealerRuns(t).dealer[..n] == t.dealer;
    } else {
      DealerCanDraw(t);
      DealerFollowsTheRule(DealerDraw(t), n);
    }
  }

  function Judge(player: int, dealer: int): Outcome {
    if dealer > 21 then DealerBust else if player > dealer then PlayerWin
    else if player < dealer then DealerWin else Push
  }

  ghost function DealerTurn(t: Table): (r: Table)
    requires FiftyTwo(t) && Total(t.player) <= 21 && |t.player| >= 2 && |t.dealer| >= 2
    ensures Good(r) && r.finished && !DealerDraws(r.dealer)
  {
    var r := DealerRuns(t.(hole := false));
    r.(outcome := Judge(Total(r.player), Total(r.dealer)), finished := true)
  }

  datatype Action = Hit | Stand | Double

  /** One call of Hit, Stand or Double. */
  ghost function Act(t: Table, a: Action): (r: Table)
    requires Good(t)
    ensures Good(r)
  {
    if t.finished || (a.Double? && |t.player| != 2) then t
    else
      EnoughCards(t);
      match a
      case Stand => DealerTurn(t)
      case Hit =>
        var next := PlayerDraws(t);
        if Total(next.player) > 21 then Bust(next) else next
      case Double =>
        var next := PlayerDraws(t.(doubled := true));
        if Total(next.player) > 21 then Bust(next) else DealerTurn(next)
  }

  /** `r` is the end of the hand `t` after the dealer's turn: the dealer's cards go on with the next ones of the deck
      until they are 17 or more and not a soft 17, the hole card is shown, and the totals decide. */
  ghost predicate DealerPlayed(t: Table, r: Table) {
    && TookTop(t.dealer, t.deck, r.dealer, r.deck) && r.player == t.player && r.doubled == t.doubled
    && r.finished && !r.hole
    && Total(r.dealer) >= 17 && HandTotal(r.dealer) != (17, true)
    && (forall n :: |t.dealer| <= n < |r.dealer| ==> Total(r.dealer[..n]) < 17 || HandTotal(r.dealer[..n]) == (17, true))
    && (r.outcome == DealerBust <==> Total(r.dealer) > 21)
    && (r.outcome == PlayerWin <==> Total(r.dealer) <= 21 && Total(r.player) > Total(r.dealer))
    && (r.outcome == DealerWin <==> Total(r.dealer) <= 21 && Total(r.player) < Total(r.dealer))
    && (r.outcome == Push <==> Total(r.dealer) <= 21 && Total(r.player) == Total(r.dealer))
  }

  lemma DealerTurnPlays(t: Table)
    requires FiftyTwo(t) && Total(t.player) <= 21 && |t.player| >= 2 && |t.dealer| >= 2
    ensures DealerPlayed(t, DealerTurn(t))
  {
    var s := t.(hole := false);
    DealerTakesInOrder(s);
    forall n | |t.dealer| <= n < |DealerRuns(s).dealer| ensures DealerDraws(DealerRuns(s).dealer[..n]) {
      DealerFollowsTheRule(s, n);
    }
  }

  /** What one call does to a hand that is being played: Hit adds the next card and loses over 21, Stand is the dealer's
      turn, and Double is one card and, unless that loses, the dealer's turn, on two cards only. */
  ghost predicate Played(t: Table, a: Action, r: Table) {
    if t.finished || (a == Double && |t.player| != 2) then r == t
    else if a == Stand then DealerPlayed(t, r)
    else
      && |t.deck| > 0
      && var next := t.(player := t.player + [t.deck[0]], deck := t.deck[1..], doubled := a == Double);
         if Total(next.player) > 21 then r == next.(hole := false, finished := true, outcome := PlayerBust)
         else if a == Hit then r == next else DealerPlayed(next, r)
  }

  lemma ActPlays(t: Table, a: Action)
    requires Good(t)
    ensures Played(t, a, Act(t, a))
  {
    if !t.finished && (a == Double ==> |t.player| == 2) {
      EnoughCards(t);
      var next := PlayerDraws(t.(doubled := a == Double));
      if a == Stand {
        DealerTurnPlays(t);
      } else if a == Double && Total(next.player) <= 21 {
        DealerTurnPlays(next);
      }
    }
  }

  lemma {:induction false} DealerKeepsCards(t: Table)
    requires FiftyTwo(t) && Hard(t.player) <= 31
    ensures Bag(DealerRuns(t)) == Bag(t)
    decreases |t.deck|
  {
    if DealerDraws(t.dealer) {
      DealerCanDraw(t);
      assert t.deck == [t.deck[0]] + t.deck[1..];
      DealerKeepsCards(DealerDraw(t));
    }
  }

  lemma PlayerDrawKeepsCards(t: Table)
    requires |t.deck| > 0
    ensures Bag(PlayerDraws(t)) == Bag(t)
  {
    assert t.deck == [t.deck[0]] + t.deck[1..];
  }

  /** No action loses, adds or duplicates a card. */
  lemma ActKeepsCards(t: Table, a: Action)
    requires Good(t)
    ensures Bag(Act(t, a)) == Bag(t)
  {
    if !t.finished {
      EnoughCards(t);
      PlayerDrawKeepsCards(t);
      var next := PlayerDraws(t.(doubled := true));
      if a.Stand? {
        DealerKeepsCards(t.(hole := false));
      } else if a.Double? && |t.player| == 2 && Total(next.player) <= 21 {
        DealerKeepsCards(next.(hole := false));
      }
    }
  }

  /** Two cards each, the dealer's second face down. */
  ghost function Dealt(deck: seq<Card>): Table
    requires |deck| >= 4
  {
    Table(deck[4..], deck[..2], deck[2..4], false, false, true, InProgress)
  }

  lemma FirstFour(deck: seq<Card>)
    requires |deck| >= 4
    ensures deck[2..][..2] == deck[2..4] && deck[2..][2..] == deck[4..]
  {
  }

  /** A player with 21 on the first two cards ends the hand at once. */
  ghost function Naturals(t: Table): Table {
    if Total(t.player) == 21 then
      t.(hole := false, finished := true, outcome := if Total(t.dealer) == 21 then Push else PlayerBlackjack)
    else t
  }

  ghost function Opening(deck: seq<Card>): (t: Table)
    requires |deck| == 52
    ensures Good(t)
  {
    TwoCardsCannotBust(deck[..2]);
    Naturals(Dealt(deck))
  }

  lemma TwoCardsCannotBust(h: seq<Card>)
    requires |h| == 2
    ensures Total(h) <= 21
  {
    assert h[..1] == [h[0]] && [h[0]][..0] == [];
    assert Hard(h[..1]) == LowPoints(h[0]);
  }

  /** The first two cards are the player's and the next two the dealer's, one of them face down; a player with 21 has won
      at once, unless the dealer has it too. */
  lemma OpeningDeals(deck: seq<Card>)
    requires |deck| == 52
    ensures var t := Opening(deck);
            && t.player == deck[..2] && t.dealer == deck[2..4] && t.deck == deck[4..] && !t.doubled
            && (t.finished <==> Total(deck[..2]) == 21) && (t.hole <==> !t.finished)
            && (t.outcome == Push <==> Total(deck[..2]) == 21 && Total(deck[2..4]) == 21)
            && (t.outcome == PlayerBlackjack <==> Total(deck[..2]) == 21 && Total(deck[2..4]) != 21)
            && (t.outcome == InProgress <==> Total(deck[..2]) != 21)
  {
  }

  ghost function Play(t: Table, actions: seq<Action>): (r: Table)
    requires Good(t)
    ensures Good(r)
  {
    if actions == [] then t else Act(Play(t, actions[..|actions| - 1]), actions[|actions| - 1])
  }

  lemma {:induction false} PlayKeepsCards(t: Table, actions: seq<Action>)
    requires Good(t)
    ensures Bag(Play(t, actions)) == Bag(t)
  {
    if actions != [] {
      PlayKeepsCards(t, actions[..|actions| - 1]);
      ActKeepsCards(Play(t, actions[..|actions| - 1]), actions[|actions| - 1]);
    }
  }

  /** Whatever the shuffle and whatever the player does, every draw finds a card, the table holds each of
      the 52 cards once and the outcome is the one the rules give: in particular the dealer who beats,
      loses to or ties a player stands on 17 to 21 and never on a soft 17. */
  lemma EveryRunIsFair(draws: seq<nat>, actions: seq<Action>)
    requires ValidDraws(draws, 52)
    ensures var t := Play(Opening(Shuffled(FullDeck(), draws)), actions);
            Bag(t) == multiset(FullDeck()) && Settled(t)
  {
    ShuffleIsPermutation(FullDeck(), draws);
    RunKeepsCards(Shuffled(FullDeck(), draws), actions);
  }

  lemma RunKeepsCards(deck: seq<Card>, actions: seq<Action>)
    requires |deck| == 52
    ensures Bag(Play(Opening(deck), actions)) == multiset(deck)
  {
    PlayKeepsCards(Opening(deck), actions);
    assert deck == deck[..2] + deck[2..4] + deck[4..];
  }

  /** A finished hand never changes again. */
  lemma {:induction false} FinishedIsFinal(t: Table, actions: seq<Action>)
    requires Good(t) && t.finished
    ensures Play(t, actions) == t
  {
    if actions != [] {
      FinishedIsFinal(t, actions[..|actions| - 1]);
    }
  }

  // ----- The Go struct -----

  class Game {
    var deck: seq<Card>
    var player: seq<Card>
    var dealer: seq<Card>
    var doubled: bool
    var finished: bool
    var hole: bool
    var outcome: Outcome

    ghost function View(): Table
      reads this
    {
      Table(deck, player, dealer, doubled, finished, hole, outcome)
    }

    constructor (draws: seq<nat>)
      requires ValidDraws(draws, 52)
      ensures View() == Opening(Shuffled(FullDeck(), draws))
    {
      var cards := NewDeck();
      Shuffle(cards, draws);
      deck, player, dealer := cards[..], [], [];
      doubled, finished, hole, outcome := false, false, true, InProgress;
      new;
      ghost var shuffled := deck;
      assert shuffled == Shuffled(FullDeck(), draws);
      FirstFour(shuffled);
      player := DrawTwo();
      dealer := DrawTwo();
      assert View() == Dealt(shuffled);
      PeekForNaturals();
    }

    method PeekForNaturals()
      modifies this
      ensures View() == Naturals(old(View()))
    {
      var pv := HandValue(player);
      if pv == 21 {
        hole := false;
        var dv := HandValue(dealer);
        if dv == 21 {
          outcome := Push;
        } else {
          outcome := PlayerBlackjack;
        }
        finished := true;
      }
    }

    static method HandValue(h: seq<Card>) returns (v: int)
      ensures v == Total(h)
    {
      var soft;
      v, soft := Value(h);
    }

    method Draw() returns (c: Card)
      requires |deck| > 0
      modifies this`deck
      ensures c == old(deck)[0] && deck == old(deck)[1..]
    {
      c := deck[0];
      deck := deck[1..];
    }

    method DrawTwo() returns (pair: seq<Card>)
      requires |deck| >= 2
      modifies this`deck
      ensures pair == old(deck)[..2] && deck == old(deck)[2..]
    {
      var a := Draw();
      var b := Draw();
      pair := [a, b];
    }

    method TakeCard()
      requires |deck| > 0
      modifies this`deck, this`player
      ensures View() == PlayerDraws(old(View()))
    {
      var c := Draw();
      player := player + [c];
    }

    method Hit()
      requires Good(View())
      modifies this
      ensures View() == Act(old(View()), Action.Hit)
    {
      if finished {
        return;
      }
      EnoughCards(View());
      TakeCard();
      var v := HandValue(player);
      if v > 21 {
        hole := false;
        outcome := PlayerBust;
        finished := true;
      }
    }

    method Stand()
      requires Good(View())
      modifies this
      ensures View() == Act(old(View()), Action.Stand)
    {
      if finished {
        return;
      }
      DealerPlay();
    }

    method Double()
      requires Good(View())
      modifies this
      ensures View() == Act(old(View()), Action.Double)
    {
      if finished || |player| != 2 {
        return;
      }
      EnoughCards(View());
      doubled := true;
      TakeCard();
      var v := HandValue(player);
      if v > 21 {
        hole := false;
        outcome := PlayerBust;
        finished := true;
        return;
      }
      DealerPlay();
    }

    method DealerPlay()
      requires FiftyTwo(View()) && Total(player) <= 21 && |player| >= 2 && |dealer| >= 2
      modifies this
      ensures View() == DealerTurn(old(View()))
    {
      hole := false;
      ghost var t, end := View(), DealerRuns(View());
      assert t == old(View()).(hole := false);
      while true
        invariant View() == t && FiftyTwo(t) && Hard(t.player) <= 31 && DealerRuns(t) == end
        decreases |t.deck|
      {
        var v, soft := Value(dealer);
        if v < 17 || (v == 17 && soft) {
          DealerCanDraw(t);
          t := DealerDraw(t);
          var c := Draw();
          dealer := dealer + [c];
          continue;
        }
        break;
      }
      Settle();
    }

    method Settle()
      modifies this
      ensures View() == old(View().(outcome := Judge(Total(player), Total(dealer)), finished := true))
    {
      var dv := HandValue(dealer);
      var pv := HandValue(player);
      if dv > 21 {
        outcome := DealerBust;
      } else if pv > dv {
        outcome := PlayerWin;
      } else if pv < dv {
        outcome := DealerWin;
      } else {
        outcome := Push;
      }
      finished := true;
    }
  }
}
