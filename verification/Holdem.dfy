/** One hand of heads-up hold'em (internal/doors/holdem/holdem.go).

    A `Hand` is one value of the Go struct plus the burned cards, which Go forgets.  The functions on
    hands specify the methods of `Game`; seats are 0 (player) and 1 (bot). */
module Holdem {
  import opened Cards
  import opened Scores
  import HandEval
  import C = Combinations

  datatype Street = Preflop | Flop | Turn | River | Showdown | Ended

  datatype Action = Fold | CheckCall | Raise | AllIn

  type Seat = s: int | 0 <= s <= 1 witness 0

  datatype Hand = Hand(
    deck: seq<Card>, hole: seq<seq<Card>>, board: seq<Card>, burned: seq<Card>,
    stacks: seq<int>, bets: seq<int>, pot: int, button: Seat, toAct: Seat, street: Street, folded: seq<bool>,
    smallBlind: int, bigBlind: int,
    winnerSeat: int, winRank: int, winBoard: bool)

  // ----- The methods, as functions -----

  function Posted(h: Hand, seat: Seat, amount: int): Hand
    requires TwoSeats(h)
  {
    var a := if amount > h.stacks[seat] then h.stacks[seat] else amount;
    h.(stacks := h.stacks[seat := h.stacks[seat] - a], bets := h.bets[seat := h.bets[seat] + a])
  }

  predicate TwoSeats(h: Hand) {
    |h.stacks| == 2 && |h.bets| == 2 && |h.folded| == 2 && |h.hole| == 2
  }

  /** A new table: equal stacks, nothing dealt. */
  function New(startingStack: int, sb: int, bb: int, button: Seat): Hand {
    Hand([], [[], []], [], [], [startingStack, startingStack], [0, 0], 0, button, 0, Preflop, [false, false],
         sb, bb, -1, 0, false)
  }

  /** The state of a new hand before the blinds. */
  function Cleared(h: Hand, deck: seq<Card>): Hand {
    h.(deck := deck, board := [], burned := [], bets := [0, 0], folded := [false, false], pot := 0,
       winnerSeat := -1, winRank := 0, winBoard := false, street := Preflop)
  }

  function Started(h: Hand, deck: seq<Card>): Hand
    requires TwoSeats(h) && |deck| == 52
  {
    Opened(Cleared(h, deck))
  }

  /** Blinds posted and hole cards dealt. */
  function Opened(c: Hand): Hand
    requires TwoSeats(c) && |c.deck| >= 4
  {
    var b := Posted(Posted(c, c.button, c.smallBlind), 1 - c.button, c.bigBlind);
    b.(hole := [b.deck[..2], b.deck[2..4]], deck := b.deck[4..], toAct := b.button)
  }

  function ApplyAction(h: Hand, seat: Seat, a: Action): Hand
    requires TwoSeats(h)
  {
    var toCall := h.bets[1 - seat] - h.bets[seat];
    match a
    case Fold => h.(folded := h.folded[seat := true])
    case CheckCall => if toCall > 0 then Posted(h, seat, toCall) else h
    case Raise => Posted(if toCall > 0 then Posted(h, seat, toCall) else h, seat, h.bigBlind)
    case AllIn => Posted(h, seat, h.stacks[seat])
  }

  function EndByFold(h: Hand): Hand
    requires TwoSeats(h)
  {
    var winner := if h.folded[0] then 1 else 0;
    h.(stacks := h.stacks[winner := h.stacks[winner] + h.pot + h.bets[0] + h.bets[1]],
       pot := 0, bets := [0, 0], winnerSeat := winner, street := Ended)
  }

  /** Burn one card and deal `n`; the burn is skipped on an empty deck. */
  function Deal(h: Hand, n: nat, next: Street): Hand
    requires |h.deck| >= n + 1
  {
    h.(burned := h.burned + h.deck[..1], board := h.board + h.deck[1..n + 1], deck := h.deck[n + 1..],
       street := next, toAct := 1 - h.button)
  }

  /** Seven cards to their score; the game's own judge is `Evaluator()`, but nothing before the class
      depends on how hands are ranked. */
  type Judge = seq<Card> -> Score

  ghost function Evaluator(): Judge {
    (cards: seq<Card>) => HandEval.Best(cards)
  }

  function ResolveShowdown(h: Hand, judge: Judge): Hand
    requires TwoSeats(h)
  {
    Award(h, judge(h.hole[0] + h.board), judge(h.hole[1] + h.board))
  }

  /** The pot goes to the better hand; equal hands split it and the odd chip goes to the player. */
  function Award(h: Hand, p: Score, b: Score): Hand
    requires TwoSeats(h)
  {
    var paid := if Beats(p, b) then [h.stacks[0] + h.pot, h.stacks[1]]
                else if Beats(b, p) then [h.stacks[0], h.stacks[1] + h.pot]
                else [h.stacks[0] + h.pot / 2 + h.pot % 2, h.stacks[1] + h.pot / 2];
    h.(stacks := paid, pot := 0, street := Ended, winBoard := true,
       winnerSeat := if Beats(p, b) then 0 else if Beats(b, p) then 1 else -1,
       winRank := if Beats(b, p) then b.rank else p.rank)
  }

  /** The street's chips, moved into the pot. */
  function Collect(h: Hand): Hand
    requires TwoSeats(h)
  {
    h.(pot := h.pot + h.bets[0] + h.bets[1], bets := [0, 0])
  }

  function CloseStreet(h: Hand, judge: Judge): Hand
    requires Good(h) && h.street != Ended
  {
    var c := Collect(h);
    if h.street == Preflop then Deal(c, 3, Flop)
    else if h.street == Flop then Deal(c, 1, Turn)
    else if h.street == Turn then Deal(c, 1, River)
    else ResolveShowdown(c.(street := Showdown), judge)
  }

  function AfterAction(h: Hand, judge: Judge): Hand
    requires Good(h) && h.street != Ended
  {
    if h.folded[0] || h.folded[1] then EndByFold(h)
    else if h.bets[0] != h.bets[1] then h.(toAct := 1 - h.toAct)
    else CloseStreet(h, judge)
  }

  /** PlayerAction and StepBot: ignored out of turn or when the hand is over. */
  ghost function Act(h: Hand, seat: Seat, a: Action, judge: Judge): (r: Hand)
    requires Good(h)
    ensures Good(r) && Chips(r) == Chips(h) && Bag(r) == Bag(h)
  {
    if h.toAct != seat || h.street == Ended then h
    else
      ApplyKeepsChips(h, seat, a);
      AfterKeepsAll(ApplyAction(h, seat, a), judge);
      AfterAction(ApplyAction(h, seat, a), judge)
  }

  // ----- What holds in every state -----

  function Behind(h: Hand): int
    requires TwoSeats(h)
  {
    h.stacks[0] + h.stacks[1]
  }

  function Chips(h: Hand): int
    requires TwoSeats(h)
  {
    Behind(h) + h.bets[0] + h.bets[1] + h.pot
  }

  ghost function Bag(h: Hand): multiset<Card>
    requires TwoSeats(h)
  {
    multiset(h.deck) + multiset(h.hole[0]) + multiset(h.hole[1]) + multiset(h.board) + multiset(h.burned)
  }

  /** Cards on the board and burned when a street is being played. */
  function BoardSize(s: Street): nat {
    match s case Preflop => 0 case Flop => 3 case Turn => 4 case _ => 5
  }

  function BurnedSize(s: Street): nat {
    match s case Preflop => 0 case Flop => 1 case Turn => 2 case _ => 3
  }

  predicate Good(h: Hand) {
    && TwoSeats(h)
    && h.stacks[0] >= 0 && h.stacks[1] >= 0 && h.bets[0] >= 0 && h.bets[1] >= 0 && h.pot >= 0
    && h.smallBlind >= 0 && h.bigBlind >= 0
    && h.street != Showdown
    && (h.street == Ended ==> h.pot == 0 && h.bets == [0, 0])
    && (h.street != Ended ==>
          && |h.hole[0]| == 2 && |h.hole[1]| == 2
          && |h.board| == BoardSize(h.street) && |h.burned| == BurnedSize(h.street)
          && |h.deck| == 48 - BoardSize(h.street) - BurnedSize(h.street))
  }

  lemma PostBetKeepsChips(h: Hand, seat: Seat, amount: int)
    requires TwoSeats(h)
    ensures var r := Posted(h, seat, amount);
            && Chips(r) == Chips(h)
            && r == h.(stacks := r.stacks, bets := r.bets)
            && (amount >= 0 && Good(h) && h.street != Ended ==> Good(r))
  {
  }

  lemma ApplyKeepsChips(h: Hand, seat: Seat, a: Action)
    requires Good(h) && h.street != Ended
    ensures var r := ApplyAction(h, seat, a);
            && Good(r) && Chips(r) == Chips(h)
            && r == h.(stacks := r.stacks, bets := r.bets, folded := r.folded)
  {
    var toCall := h.bets[1 - seat] - h.bets[seat];
    PostBetKeepsChips(h, seat, toCall);
    PostBetKeepsChips(h, seat, h.stacks[seat]);
    PostBetKeepsChips(if toCall > 0 then Posted(h, seat, toCall) else h, seat, h.bigBlind);
  }

  lemma DealKeepsCards(h: Hand, n: nat, next: Street)
    requires TwoSeats(h) && |h.deck| >= n + 1
    ensures Bag(Deal(h, n, next)) == Bag(h)
  {
    assert h.deck == h.deck[..1] + h.deck[1..n + 1] + h.deck[n + 1..];
  }

  /** The loop's cards: the i-th after the burned one comes next. */
  lemma OneMoreDealt(d: seq<Card>, i: nat)
    requires i + 1 < |d|
    ensures d[i + 1..][0] == d[i + 1] && d[i + 1..][1..] == d[i + 2..] && d[1..i + 2] == d[1..i + 1] + [d[i + 1]]
  {
  }

  lemma CloseKeepsChips(h: Hand, judge: Judge)
    requires Good(h) && h.street != Ended
    ensures Good(CloseStreet(h, judge)) && Chips(CloseStreet(h, judge)) == Chips(h)
  {
  }

  lemma CloseKeepsCards(h: Hand, judge: Judge)
    requires Good(h) && h.street != Ended
    ensures TwoSeats(CloseStreet(h, judge)) && Bag(CloseStreet(h, judge)) == Bag(h)
  {
    var c := Collect(h);
    if h.street == Preflop {
      DealKeepsCards(c, 3, Flop);
    } else if h.street == Flop {
      DealKeepsCards(c, 1, Turn);
    } else if h.street == Turn {
      DealKeepsCards(c, 1, River);
    }
  }

  lemma FoldKeepsChips(h: Hand)
    requires Good(h) && h.street != Ended
    ensures Good(EndByFold(h)) && Chips(EndByFold(h)) == Chips(h)
  {
  }

  lemma AfterKeepsAll(h: Hand, judge: Judge)
    requires Good(h) && h.street != Ended
    ensures Good(AfterAction(h, judge)) && Chips(AfterAction(h, judge)) == Chips(h) && Bag(AfterAction(h, judge)) == Bag(h)
  {
    FoldKeepsChips(h);
    CloseKeepsChips(h, judge);
    CloseKeepsCards(h, judge);
  }

  // ----- Starting a hand -----

  predicate Idle(h: Hand)
    requires TwoSeats(h)
  {
    h.pot == 0 && h.bets == [0, 0]
  }

  /** All a hand needs to start: two seats and no negative amount. */
  predicate Startable(h: Hand) {
    TwoSeats(h) && h.stacks[0] >= 0 && h.stacks[1] >= 0 && h.smallBlind >= 0 && h.bigBlind >= 0
  }

  lemma PostBetIsCapped(h: Hand, seat: Seat, amount: int)
    requires TwoSeats(h) && h.stacks[seat] >= 0 && amount >= 0
    ensures var r := Posted(h, seat, amount);
            && 0 <= r.stacks[seat] <= h.stacks[seat] && r.stacks[1 - seat] == h.stacks[1 - seat]
            && h.bets[seat] <= r.bets[seat] <= h.bets[seat] + amount && r.bets[1 - seat] == h.bets[1 - seat]
            && (r.stacks[seat] > 0 ==> r.bets[seat] == h.bets[seat] + amount)
  {
  }

  /** The second blind, on bets that are at most `small` for the first. */
  lemma SecondBlind(a: Hand, small: int)
    requires Startable(a) && a.bets[1 - a.button] == 0 && 0 <= a.bets[a.button] <= small
    ensures var b := Posted(a, 1 - a.button, a.bigBlind);
            && b == a.(stacks := b.stacks, bets := b.bets) && Startable(b) && Chips(b) == Chips(a)
            && b.bets[0] >= 0 && b.bets[1] >= 0
            && (small <= a.bigBlind && b.stacks[1 - a.button] > 0 ==> b.bets[a.button] <= b.bets[1 - a.button])
  {
    PostBetKeepsChips(a, 1 - a.button, a.bigBlind);
    PostBetIsCapped(a, 1 - a.button, a.bigBlind);
  }

  /** The blinds of a cleared hand. */
  lemma BlindsArePosted(c: Hand)
    requires Startable(c) && Idle(c)
    ensures var b := Posted(Posted(c, c.button, c.smallBlind), 1 - c.button, c.bigBlind);
            && b == c.(stacks := b.stacks, bets := b.bets) && Startable(b)
            && b.bets[0] >= 0 && b.bets[1] >= 0 && Chips(b) == Behind(c)
            && (c.smallBlind <= c.bigBlind && b.stacks[1 - c.button] > 0 ==> b.bets[c.button] <= b.bets[1 - c.button])
  {
    PostBetKeepsChips(c, c.button, c.smallBlind);
    PostBetIsCapped(c, c.button, c.smallBlind);
    SecondBlind(Posted(c, c.button, c.smallBlind), c.smallBlind);
  }

  lemma HolesKeepCards(deck: seq<Card>)
    requires |deck| >= 4
    ensures multiset(deck[4..]) + multiset(deck[..2]) + multiset(deck[2..4]) == multiset(deck)
  {
    assert deck == deck[..2] + deck[2..4] + deck[4..];
  }

  /** A hand deals from one deck and posts the blinds; chips still on the table from an unfinished hand are
      forgotten, so (where those are not negative) the chips are kept exactly when there are none. */
  lemma StartHandDeals(h: Hand, deck: seq<Card>)
    requires Startable(h) && |deck| == 52
    ensures var r := Started(h, deck);
            && Good(r) && r.street == Preflop && Bag(r) == multiset(deck)
            && r.toAct == h.button == r.button && r.folded == [false, false]
            && r.smallBlind == h.smallBlind && r.bigBlind == h.bigBlind
            && Chips(r) == Behind(h)
            && (h.pot >= 0 && h.bets[0] >= 0 && h.bets[1] >= 0 ==> (Chips(r) == Chips(h) <==> Idle(h)))
  {
    BlindsArePosted(Cleared(h, deck));
    HolesKeepCards(deck);
  }

  // ----- Runs of many hands -----

  /** StartHand with what the generator returns to the shuffle; one action; AdvanceButton. */
  datatype Step = Begin(draws: seq<nat>) | Move(seat: Seat, action: Action) | Rotate

  predicate Drawn(s: Step) {
    s.Begin? ==> ValidDraws(s.draws, 52)
  }

  /** One step of a table whose hands are dealt from `full`. */
  ghost function Next(h: Hand, s: Step, full: seq<Card>, judge: Judge): (r: Hand)
    requires Good(h) && |full| == 52 && Drawn(s)
    ensures Good(r)
  {
    match s
    case Begin(draws) => StartHandDeals(h, Shuffled(full, draws)); Started(h, Shuffled(full, draws))
    case Move(seat, action) => Act(h, seat, action, judge)
    case Rotate => h.(button := 1 - h.button)
  }

  ghost function Run(h: Hand, steps: seq<Step>, full: seq<Card>, judge: Judge): (r: Hand)
    requires Good(h) && |full| == 52 && forall s :: s in steps ==> Drawn(s)
    ensures Good(r)
    decreases |steps|
  {
    if steps == [] then h else Run(Next(h, steps[0], full, judge), steps[1..], full, judge)
  }

  /** Hands are only started when the pot and the bets are at zero. */
  ghost predicate CleanRun(h: Hand, steps: seq<Step>, full: seq<Card>, judge: Judge)
    requires Good(h) && |full| == 52 && forall s :: s in steps ==> Drawn(s)
    decreases |steps|
  {
    steps == []
    || ((steps[0].Begin? ==> Idle(h)) && CleanRun(Next(h, steps[0], full, judge), steps[1..], full, judge))
  }

  lemma NextKeeps(h: Hand, s: Step, full: seq<Card>, judge: Judge)
    requires Good(h) && |full| == 52 && Drawn(s) && (s.Begin? ==> Idle(h))
    ensures Chips(Next(h, s, full, judge)) == Chips(h)
    ensures s.Begin? || Bag(h) == multiset(full) ==> Bag(Next(h, s, full, judge)) == multiset(full)
  {
    if s.Begin? {
      StartHandDeals(h, Shuffled(full, s.draws));
      ShuffleIsPermutation(full, s.draws);
    }
  }

  lemma AmountsAreBounded(h: Hand)
    requires Good(h)
    ensures 0 <= h.pot <= Chips(h) && (forall s: Seat :: 0 <= h.stacks[s] <= Chips(h) && 0 <= h.bets[s] <= Chips(h))
  {
  }

  ghost predicate SomeBegins(steps: seq<Step>)
    decreases |steps|
  {
    steps != [] && (steps[0].Begin? || SomeBegins(steps[1..]))
  }

  /** Over every run: no chip appears or disappears, no amount is negative or larger than the chips in play, all
      52 cards are accounted for from the first deal on, and every street has its board. */
  lemma {:induction false} RunKeepsChipsAndCards(h: Hand, steps: seq<Step>, full: seq<Card>, judge: Judge)
    requires Good(h) && |full| == 52 && (forall s :: s in steps ==> Drawn(s)) && CleanRun(h, steps, full, judge)
    ensures var r := Run(h, steps, full, judge);
            && Chips(r) == Chips(h)
            && 0 <= r.pot <= Chips(h)
            && (forall s: Seat :: 0 <= r.stacks[s] <= Chips(h) && 0 <= r.bets[s] <= Chips(h))
            && (Bag(h) == multiset(full) || SomeBegins(steps) ==> Bag(r) == multiset(full))
            && (r.street != Ended ==> |r.board| == BoardSize(r.street))
    decreases |steps|
  {
    if steps == [] {
      AmountsAreBounded(h);
    } else {
      NextKeeps(h, steps[0], full, judge);
      RunKeepsChipsAndCards(Next(h, steps[0], full, judge), steps[1..], full, judge);
    }
  }

  // ----- Progress -----

  function StreetsLeft(s: Street): nat {
    match s case Preflop => 4 case Flop => 3 case Turn => 2 case River => 1 case _ => 0
  }

  /** The hand is over, or a street has closed, or chips have moved from a stack to the table. */
  predicate Advances(h: Hand, r: Hand)
    requires TwoSeats(h) && TwoSeats(r)
  {
    || r.street == Ended
    || StreetsLeft(r.street) < StreetsLeft(h.street)
    || (r.street == h.street && Behind(r) < Behind(h))
  }

  /** Bets are uneven and the seat to act cannot answer: it is out of chips, or it is the one ahead. */
  predicate Stuck(h: Hand)
    requires TwoSeats(h)
  {
    h.bets[0] != h.bets[1] && (h.stacks[h.toAct] == 0 || h.bets[h.toAct] > h.bets[1 - h.toAct])
  }

  /** Two acting seats with chips left: the one to act is never ahead. */
  predicate Ordered(h: Hand)
    requires TwoSeats(h)
  {
    h.stacks[0] > 0 && h.stacks[1] > 0 ==> h.bets[h.toAct] <= h.bets[1 - h.toAct]
  }

  lemma StuckMeansAnEmptyStack(h: Hand)
    requires Good(h) && Ordered(h) && Stuck(h)
    ensures h.bets[0] != h.bets[1] && (h.stacks[0] == 0 || h.stacks[1] == 0)
  {
  }

  lemma StartIsOrdered(h: Hand, deck: seq<Card>)
    requires Startable(h) && |deck| == 52 && h.smallBlind <= h.bigBlind
    ensures Ordered(Started(h, deck))
  {
    BlindsArePosted(Cleared(h, deck));
  }

  /** An action other than a fold leaves its seat level or ahead, unless it is out of chips. */
  lemma ApplyLeads(h: Hand, a: Action)
    requires Good(h) && Ordered(h) && h.street != Ended && a != Fold
    ensures var r := ApplyAction(h, h.toAct, a);
            r.stacks[0] > 0 && r.stacks[1] > 0 ==> r.bets[h.toAct] >= r.bets[1 - h.toAct]
  {
  }

  lemma AwardEnds(h: Hand, p: Score, b: Score)
    requires TwoSeats(h)
    ensures Award(h, p, b).street == Ended && Award(h, p, b).bets == h.bets && TwoSeats(Award(h, p, b))
    ensures h.pot >= 0 ==> Behind(Award(h, p, b)) == Behind(h) + h.pot
  {
  }

  lemma DealIsEven(h: Hand, n: nat, next: Street)
    requires |h.deck| >= n + 1 && TwoSeats(h)
    ensures var r := Deal(h, n, next);
            TwoSeats(r) && r.bets == h.bets && r.street == next
  {
  }

  lemma CloseIsEven(h: Hand, judge: Judge)
    requires Good(h) && h.street != Ended
    ensures TwoSeats(CloseStreet(h, judge)) && CloseStreet(h, judge).bets == [0, 0]
    ensures StreetsLeft(CloseStreet(h, judge).street) < StreetsLeft(h.street)
  {
    var c := Collect(h);
    if h.street == Preflop {
      DealIsEven(c, 3, Flop);
    } else if h.street == Flop {
      DealIsEven(c, 1, Turn);
    } else if h.street == Turn {
      DealIsEven(c, 1, River);
    } else {
      AwardEnds(c.(street := Showdown), judge(h.hole[0] + h.board), judge(h.hole[1] + h.board));
    }
  }

  lemma EvenIsOrdered(h: Hand)
    requires TwoSeats(h) && h.bets == [0, 0]
    ensures Ordered(h)
  {
  }

  /** Play never leaves the seat to act ahead while both seats have chips behind. */
  lemma ActKeepsOrder(h: Hand, seat: Seat, a: Action, judge: Judge)
    requires Good(h) && Ordered(h)
    ensures Ordered(Act(h, seat, a, judge))
  {
    if h.toAct == seat && h.street != Ended {
      ApplyKeepsChips(h, seat, a);
      var mid := ApplyAction(h, seat, a);
      CloseIsEven(mid, judge);
      if a != Fold {
        ApplyLeads(h, a);
      }
      AfterIsOrdered(mid, judge);
    }
  }

  lemma AfterIsOrdered(h: Hand, judge: Judge)
    requires Good(h) && h.street != Ended
    requires || h.folded[0] || h.folded[1]
             || (h.stacks[0] > 0 && h.stacks[1] > 0 ==> h.bets[h.toAct] >= h.bets[1 - h.toAct])
    ensures TwoSeats(AfterAction(h, judge)) && Ordered(AfterAction(h, judge))
  {
    if h.folded[0] || h.folded[1] {
      EvenIsOrdered(EndByFold(h));
    } else if h.bets[0] == h.bets[1] {
      CloseIsEven(h, judge);
      EvenIsOrdered(CloseStreet(h, judge));
    }
  }

  lemma AfterAdvances(before: Hand, h: Hand, judge: Judge)
    requires Good(before) && Good(h) && h.street == before.street != Ended
    requires h.folded[0] || h.folded[1] || h.bets[0] == h.bets[1] || Behind(h) < Behind(before)
    ensures TwoSeats(AfterAction(h, judge)) && Advances(before, AfterAction(h, judge))
  {
    CloseIsEven(h, judge);
  }

  lemma ApplyMoves(h: Hand, a: Action)
    requires Good(h) && h.street != Ended && h.bigBlind > 0 && !Stuck(h)
    ensures var r := ApplyAction(h, h.toAct, a);
            TwoSeats(r) && (r.folded[h.toAct] || r.bets[0] == r.bets[1] || Behind(r) < Behind(h))
  {
  }

  /** Every action makes progress exactly in the states that are not stuck. */
  lemma ProgressUnlessStuck(h: Hand, judge: Judge)
    requires Good(h) && h.street != Ended && h.bigBlind > 0 && !h.folded[0] && !h.folded[1]
    ensures (forall a :: Advances(h, Act(h, h.toAct, a, judge))) <==> !Stuck(h)
  {
    if Stuck(h) {
      StuckCallDoesNothing(h, judge);
      assert !Advances(h, Act(h, h.toAct, CheckCall, judge));
    } else {
      forall a ensures Advances(h, Act(h, h.toAct, a, judge)) {
        ApplyKeepsChips(h, h.toAct, a);
        ApplyMoves(h, a);
        AfterAdvances(h, ApplyAction(h, h.toAct, a), judge);
      }
    }
  }

  lemma StuckCallDoesNothing(h: Hand, judge: Judge)
    requires Good(h) && h.street != Ended && Stuck(h) && !h.folded[0] && !h.folded[1]
    ensures Act(h, h.toAct, CheckCall, judge) == h.(toAct := 1 - h.toAct)
  {
    var toCall := h.bets[1 - h.toAct] - h.bets[h.toAct];
    if toCall > 0 {
      PostNothing(h, h.toAct, toCall);
    }
    assert ApplyAction(h, h.toAct, CheckCall) == h;
  }

  lemma PostNothing(h: Hand, seat: Seat, amount: int)
    requires TwoSeats(h) && amount >= 0 && h.stacks[seat] == 0
    ensures Posted(h, seat, amount) == h
  {
  }

  // ----- What each action does, said from outside -----

  function Least(a: int, b: int): int { if a < b then a else b }

  function Most(a: int, b: int): int { if a < b then b else a }

  /** The seat's bet after an action: a call reaches the other bet, a raise goes one big blind beyond, an all-in
      takes everything; no bet goes down, and none exceeds what the seat has. */
  function BetAfter(h: Hand, seat: Seat, a: Action): int
    requires TwoSeats(h)
  {
    var (mine, other, all) := (h.bets[seat], h.bets[1 - seat], h.bets[seat] + h.stacks[seat]);
    match a
    case Fold => mine
    case CheckCall => Most(mine, Least(other, all))
    case Raise => Least(Most(mine, Least(other, all)) + h.bigBlind, all)
    case AllIn => all
  }

  /** `r` is `h` after the action of `seat`, before the hand goes on: only that seat's stack and bet have changed,
      chip for chip, or it has folded. */
  ghost predicate Acted(h: Hand, r: Hand, seat: Seat, a: Action)
    requires TwoSeats(h)
  {
    && TwoSeats(r) && r == h.(stacks := r.stacks, bets := r.bets, folded := r.folded)
    && r.stacks[1 - seat] == h.stacks[1 - seat] && r.bets[1 - seat] == h.bets[1 - seat]
    && r.bets[seat] == BetAfter(h, seat, a)
    && r.stacks[seat] + r.bets[seat] == h.stacks[seat] + h.bets[seat]
    && r.folded[1 - seat] == h.folded[1 - seat] && r.folded[seat] == (h.folded[seat] || a == Fold)
  }

  lemma PostReaches(h: Hand, seat: Seat, amount: int)
    requires TwoSeats(h) && h.stacks[seat] >= 0 && amount >= 0
    ensures var r := Posted(h, seat, amount);
            && TwoSeats(r) && r == h.(stacks := r.stacks, bets := r.bets)
            && r.stacks[1 - seat] == h.stacks[1 - seat] && r.bets[1 - seat] == h.bets[1 - seat]
            && r.bets[seat] == Least(h.bets[seat] + amount, h.bets[seat] + h.stacks[seat])
            && r.stacks[seat] + r.bets[seat] == h.stacks[seat] + h.bets[seat]
  {
  }

  lemma ActionsDo(h: Hand, seat: Seat, a: Action)
    requires Good(h)
    ensures Acted(h, ApplyAction(h, seat, a), seat, a)
  {
    var toCall := h.bets[1 - seat] - h.bets[seat];
    match a
    case Fold =>
    case CheckCall =>
      if toCall > 0 { PostReaches(h, seat, toCall); }
    case Raise =>
      if toCall > 0 { PostReaches(h, seat, toCall); }
      PostReaches(if toCall > 0 then Posted(h, seat, toCall) else h, seat, h.bigBlind);
    case AllIn => PostReaches(h, seat, h.stacks[seat]);
  }

  /** A fold gives the other seat everything on the table, and leaves the folding seat its stack. */
  lemma FoldGivesAll(h: Hand, judge: Judge)
    requires Good(h) && h.street != Ended && !h.folded[0] && !h.folded[1]
    ensures var (r, w) := (Act(h, h.toAct, Fold, judge), 1 - h.toAct);
            && r.street == Ended && r.winnerSeat == w && r.pot == 0 && r.bets == [0, 0]
            && r.stacks[w] == h.stacks[w] + h.pot + h.bets[0] + h.bets[1]
            && r.stacks[h.toAct] == h.stacks[h.toAct]
  {
    ActionsDo(h, h.toAct, Fold);
  }

  /** The bets are level after the action. */
  predicate Levels(h: Hand, a: Action)
    requires TwoSeats(h)
  {
    BetAfter(h, h.toAct, a) == h.bets[1 - h.toAct]
  }

  /** What a seat has left once its bet is `level`. */
  function Left(h: Hand, seat: Seat, level: int): int
    requires TwoSeats(h)
  {
    h.stacks[seat] + h.bets[seat] - level
  }

  /** The state between the action and what follows it. */
  lemma AfterActing(h: Hand, a: Action, judge: Judge) returns (c: Hand)
    requires Good(h) && h.street != Ended
    ensures Good(c) && Acted(h, c, h.toAct, a) && Act(h, h.toAct, a, judge) == AfterAction(c, judge)
  {
    ActionsDo(h, h.toAct, a);
    ApplyKeepsChips(h, h.toAct, a);
    c := ApplyAction(h, h.toAct, a);
  }

  lemma EvenOrNot(h: Hand, c: Hand, a: Action)
    requires TwoSeats(h) && Acted(h, c, h.toAct, a) && a != Fold && |h.stacks| == 2
    ensures c.folded[0] == h.folded[0] && c.folded[1] == h.folded[1]
    ensures c.bets[0] == c.bets[1] <==> Levels(h, a)
    ensures var level := h.bets[1 - h.toAct];
            Levels(h, a) ==> c == h.(stacks := [Left(h, 0, level), Left(h, 1, level)], bets := [level, level])
  {
    assert c.folded == [c.folded[0], c.folded[1]] && h.folded == [h.folded[0], h.folded[1]];
    assert c.stacks == [c.stacks[0], c.stacks[1]];
    assert c.bets == [c.bets[0], c.bets[1]];
  }

  /** An action that leaves the bets uneven passes the turn; nothing else happens. */
  lemma UnevenPassesTheTurn(h: Hand, a: Action, judge: Judge)
    requires Good(h) && h.street != Ended && !h.folded[0] && !h.folded[1] && a != Fold && !Levels(h, a)
    ensures var r := Act(h, h.toAct, a, judge);
            && r.toAct == 1 - h.toAct && Acted(h, r.(toAct := h.toAct), h.toAct, a)
  {
    var c := AfterActing(h, a, judge);
    EvenOrNot(h, c, a);
  }

  /** The hand with both bets at the level of the one called. */
  function Levelled(h: Hand): Hand
    requires TwoSeats(h)
  {
    var level := h.bets[1 - h.toAct];
    h.(stacks := [Left(h, 0, level), Left(h, 1, level)], bets := [level, level])
  }

  lemma EvenCloses(c: Hand, judge: Judge)
    requires Good(c) && c.street != Ended && !c.folded[0] && !c.folded[1] && c.bets[0] == c.bets[1]
    ensures AfterAction(c, judge) == CloseStreet(c, judge)
  {
  }

  lemma LevelCloses(h: Hand, a: Action, judge: Judge)
    requires Good(h) && h.street != Ended && !h.folded[0] && !h.folded[1] && a != Fold && Levels(h, a)
    ensures Good(Levelled(h)) && Act(h, h.toAct, a, judge) == CloseStreet(Levelled(h), judge)
  {
    var c := AfterActing(h, a, judge);
    EvenOrNot(h, c, a);
    EvenCloses(c, judge);
  }

  /** The cards that a street turns over. */
  function CardsDealt(s: Street): nat {
    match s case Preflop => 3 case Flop => 1 case Turn => 1 case _ => 0
  }

  function NextStreet(s: Street): Street {
    match s case Preflop => Flop case Flop => Turn case Turn => River case _ => Ended
  }

  /** Level bets before the river: they go to the pot, one card is burned, the next ones are turned over, and the
      seat without the button is to act. */
  lemma LevelDealsTheNextStreet(h: Hand, a: Action, judge: Judge)
    requires Good(h) && h.street != Ended && h.street != River && !h.folded[0] && !h.folded[1] && a != Fold && Levels(h, a)
    ensures var (r, n, level) := (Act(h, h.toAct, a, judge), CardsDealt(h.street), h.bets[1 - h.toAct]);
            && r.street == NextStreet(h.street) && r.toAct == 1 - h.button
            && r.stacks == [Left(h, 0, level), Left(h, 1, level)] && r.bets == [0, 0] && r.pot == h.pot + 2 * level
            && r.burned == h.burned + [h.deck[0]] && r.board == h.board + h.deck[1..n + 1] && r.deck == h.deck[n + 1..]
            && r.hole == h.hole && r.folded == h.folded && r.winnerSeat == h.winnerSeat
  {
    LevelCloses(h, a, judge);
    LevelStreet(Levelled(h), judge);
  }

  lemma LevelStreet(c: Hand, judge: Judge)
    requires Good(c) && c.street != Ended && c.street != River && c.bets[0] == c.bets[1]
    ensures var (r, n) := (CloseStreet(c, judge), CardsDealt(c.street));
            && r.street == NextStreet(c.street) && r.toAct == 1 - c.button
            && r.stacks == c.stacks && r.bets == [0, 0] && r.pot == c.pot + 2 * c.bets[0]
            && r.burned == c.burned + [c.deck[0]] && r.board == c.board + c.deck[1..n + 1] && r.deck == c.deck[n + 1..]
            && r.hole == c.hole && r.folded == c.folded && r.winnerSeat == c.winnerSeat
  {
    assert c.deck[..1] == [c.deck[0]];
  }

  /** The stacks after a showdown for `pot`, `p` against `b`, from what the seats have left: the higher category wins,
      then the higher tiebreak. */
  ghost predicate Paid(r: Hand, left0: int, left1: int, pot: int, p: Score, b: Score) {
    && r.street == Ended && r.pot == 0 && r.bets == [0, 0] && r.winBoard && |r.stacks| == 2
    && (p.rank > b.rank || (p.rank == b.rank && p.tiebreak > b.tiebreak) ==>
          r.stacks == [left0 + pot, left1] && r.winnerSeat == 0 && r.winRank == p.rank)
    && (b.rank > p.rank || (b.rank == p.rank && b.tiebreak > p.tiebreak) ==>
          r.stacks == [left0, left1 + pot] && r.winnerSeat == 1 && r.winRank == b.rank)
    && (p == b ==> r.stacks[0] - left0 + r.stacks[1] - left1 == pot && 0 <= (r.stacks[0] - left0) - (r.stacks[1] - left1) <= 1
                   && r.winnerSeat == -1 && r.winRank == p.rank)
  }

  lemma AwardPays(c: Hand, p: Score, b: Score)
    requires TwoSeats(c) && c.pot >= 0 && c.bets == [0, 0]
    ensures Paid(Award(c, p, b), c.stacks[0], c.stacks[1], c.pot, p, b)
  {
  }

  /** `r` is the end of the hand `c`, whose bets are level, after its cards are shown: the better hand takes the pot and
      all bets, the other seat keeps what it has left; equal hands split them, the odd chip going to seat 0. */
  ghost predicate ShownDown(c: Hand, r: Hand, judge: Judge)
    requires TwoSeats(c)
  {
    && Paid(r, c.stacks[0], c.stacks[1], c.pot + c.bets[0] + c.bets[1], judge(c.hole[0] + c.board), judge(c.hole[1] + c.board))
    && r.hole == c.hole && r.board == c.board
  }

  lemma LevelRiver(c: Hand, judge: Judge)
    requires Good(c) && c.street == River && c.bets[0] == c.bets[1]
    ensures ShownDown(c, CloseStreet(c, judge), judge)
  {
    AwardPays(Collect(c).(street := Showdown), judge(c.hole[0] + c.board), judge(c.hole[1] + c.board));
  }

  /** Level bets on the river are the showdown. */
  lemma ShowdownPaysTheBetterHand(h: Hand, a: Action, judge: Judge)
    requires Good(h) && h.street == River && !h.folded[0] && !h.folded[1] && a != Fold && Levels(h, a)
    ensures ShownDown(Levelled(h), Act(h, h.toAct, a, judge), judge)
  {
    LevelCloses(h, a, judge);
    LevelRiver(Levelled(h), judge);
  }

  /** `r` is a hand just started from `deck` at the table `h`: the button posts the small blind and the other seat the
      big one, each as far as its stack goes; seat 0 gets the first two cards and seat 1 the next two. */
  ghost predicate Dealt(h: Hand, r: Hand, deck: seq<Card>)
    requires TwoSeats(h) && |deck| >= 4
  {
    var sb, bb := Least(h.smallBlind, h.stacks[h.button]), Least(h.bigBlind, h.stacks[1 - h.button]);
    && TwoSeats(r) && r.street == Preflop && r.toAct == h.button == r.button && r.pot == 0
    && r.folded == [false, false] && r.winnerSeat == -1 && r.winRank == 0 && !r.winBoard
    && r.hole == [deck[..2], deck[2..4]] && r.deck == deck[4..] && r.board == [] && r.burned == []
    && r.bets[h.button] == sb && r.bets[1 - h.button] == bb
    && r.stacks[h.button] == h.stacks[h.button] - sb && r.stacks[1 - h.button] == h.stacks[1 - h.button] - bb
    && r.smallBlind == h.smallBlind && r.bigBlind == h.bigBlind
  }

  lemma HandIsDealt(h: Hand, deck: seq<Card>)
    requires Startable(h) && |deck| == 52
    ensures Dealt(h, Started(h, deck), deck)
  {
    var c := Cleared(h, deck);
    PostReaches(c, c.button, c.smallBlind);
    PostReaches(Posted(c, c.button, c.smallBlind), 1 - c.button, c.bigBlind);
  }

  // ----- How long a hand can take, and when it cannot finish -----

  /** An upper bound on the number of actions that are left. */
  function Budget(h: Hand): int
    requires Good(h)
  {
    StreetsLeft(h.street) * (Chips(h) + 1) + if h.street == Ended then 0 else Behind(h)
  }

  ghost function Moves(h: Hand, actions: seq<Action>, judge: Judge): (r: Hand)
    requires Good(h)
    ensures Good(r) && Chips(r) == Chips(h)
    decreases |actions|
  {
    if actions == [] then h else Moves(Act(h, h.toAct, actions[0], judge), actions[1..], judge)
  }

  lemma BudgetShrinks(h: Hand, r: Hand)
    requires Good(h) && Good(r) && Chips(r) == Chips(h) && h.street != Ended && Advances(h, r)
    ensures 0 <= Budget(r) < Budget(h)
  {
    var c := Chips(h) + 1;
    if StreetsLeft(r.street) < StreetsLeft(h.street) {
      assert StreetsLeft(r.street) * c + c <= StreetsLeft(h.street) * c;
    }
  }

  lemma ActKeepsFolds(h: Hand, a: Action, judge: Judge)
    requires Good(h) && h.street != Ended && !h.folded[0] && !h.folded[1]
    ensures var r := Act(h, h.toAct, a, judge);
            r.street == Ended || (!r.folded[0] && !r.folded[1] && r.bigBlind == h.bigBlind)
  {
    ApplyKeepsChips(h, h.toAct, a);
    AfterKeepsFolds(ApplyAction(h, h.toAct, a), judge);
  }

  lemma AfterKeepsFolds(h: Hand, judge: Judge)
    requires Good(h) && h.street != Ended
    ensures var r := AfterAction(h, judge);
            r.smallBlind == h.smallBlind && r.bigBlind == h.bigBlind
            && (r.street == Ended || (|r.folded| == 2 && !r.folded[0] && !r.folded[1]))
  {
  }

  lemma ApplyDoesNotFold(h: Hand, a: Action)
    requires Good(h) && h.street != Ended && a != Fold
    ensures ApplyAction(h, h.toAct, a).folded == h.folded && ApplyAction(h, h.toAct, a).bigBlind == h.bigBlind
  {
  }

  lemma FirstMove(h: Hand, r: Hand, actions: seq<Action>, judge: Judge)
    requires Good(h) && actions != [] && r == Act(h, h.toAct, actions[0], judge)
    ensures Moves(h, actions, judge) == Moves(r, actions[1..], judge)
  {
  }

  lemma LaterMoves(h: Hand, r: Hand, actions: seq<Action>, n: nat, judge: Judge)
    requires Good(h) && n < |actions| && r == Act(h, h.toAct, actions[0], judge)
    ensures Moves(r, actions[1..][..n], judge) == Moves(h, actions[..n + 1], judge)
  {
    var upTo := actions[..n + 1];
    assert upTo[0] == actions[0] && upTo[1..] == actions[1..][..n];
    FirstMove(h, r, upTo, judge);
  }

  /** A hand that never gets stuck is over after at most `Budget` actions, whatever they are. */
  lemma {:induction false} HandsEnd(h: Hand, actions: seq<Action>, judge: Judge)
    requires Good(h) && h.bigBlind > 0 && !h.folded[0] && !h.folded[1]
    requires forall n :: 0 <= n <= |actions| ==> !Stuck(Moves(h, actions[..n], judge)) && Moves(h, actions[..n], judge).street != Ended
    ensures |actions| <= Budget(h)
    decreases |actions|
  {
    assert actions[..0] == [];
    assert Moves(h, [], judge) == h;
    if actions != [] {
      var r := Act(h, h.toAct, actions[0], judge);
      ProgressUnlessStuck(h, judge);
      assert Advances(h, Act(h, h.toAct, actions[0], judge));
      BudgetShrinks(h, r);
      ActKeepsFolds(h, actions[0], judge);
      forall n | 0 <= n <= |actions[1..]|
        ensures Moves(r, actions[1..][..n], judge) == Moves(h, actions[..n + 1], judge)
      {
        LaterMoves(h, r, actions, n, judge);
      }
      assert Moves(r, actions[1..][..0], judge).street != Ended;
      HandsEnd(r, actions[1..], judge);
    }
  }

  /** The seat that is behind has no chips left: it can never call. */
  predicate ShortAllIn(h: Hand)
    requires TwoSeats(h)
  {
    || (h.bets[0] < h.bets[1] && h.stacks[0] == 0)
    || (h.bets[1] < h.bets[0] && h.stacks[1] == 0)
  }

  lemma ApplyKeepsShort(h: Hand, seat: Seat, a: Action)
    requires Good(h) && h.street != Ended && ShortAllIn(h)
    ensures TwoSeats(ApplyAction(h, seat, a)) && ShortAllIn(ApplyAction(h, seat, a))
  {
  }

  lemma ShortAllInStays(h: Hand, a: Action, judge: Judge)
    requires Good(h) && h.street != Ended && ShortAllIn(h) && a != Fold
    requires !h.folded[0] && !h.folded[1]
    ensures var r := Act(h, h.toAct, a, judge);
            r.street == h.street && ShortAllIn(r) && r.folded == h.folded
  {
    ApplyKeepsChips(h, h.toAct, a);
    ApplyDoesNotFold(h, a);
    ApplyKeepsShort(h, h.toAct, a);
  }

  /** After a short all-in the street can never close: without a fold the hand goes on for ever. */
  lemma {:induction false} ShortAllInNeverEnds(h: Hand, actions: seq<Action>, judge: Judge)
    requires Good(h) && h.street != Ended && ShortAllIn(h) && !h.folded[0] && !h.folded[1]
    requires Fold !in actions
    ensures Moves(h, actions, judge).street == h.street && ShortAllIn(Moves(h, actions, judge))
    decreases |actions|
  {
    if actions != [] {
      ShortAllInStays(h, actions[0], judge);
      ShortAllInNeverEnds(Act(h, h.toAct, actions[0], judge), actions[1..], judge);
    }
  }

  /** A stuck seat that passes leaves the other one stuck exactly after a short all-in; otherwise the
      seat behind still has chips and can answer. */
  lemma StuckStaysExactlyAfterAShortAllIn(h: Hand, judge: Judge)
    requires Good(h) && h.street != Ended && Ordered(h) && Stuck(h) && !h.folded[0] && !h.folded[1]
    ensures Stuck(Act(h, h.toAct, CheckCall, judge)) <==> ShortAllIn(h)
  {
    StuckCallDoesNothing(h, judge);
  }

  // ----- From the constructor on -----

  /** A state of a table with these blinds: what play needs to make progress. */
  predicate InPlay(h: Hand, sb: int, bb: int) {
    && Good(h) && h.smallBlind == sb && h.bigBlind == bb
    && (sb <= bb ==> Ordered(h))
    && (h.street != Ended ==> !h.folded[0] && !h.folded[1])
  }

  lemma ActKeepsPlay(h: Hand, seat: Seat, a: Action, sb: int, bb: int, judge: Judge)
    requires InPlay(h, sb, bb)
    ensures InPlay(Act(h, seat, a, judge), sb, bb)
  {
    if sb <= bb {
      ActKeepsOrder(h, seat, a, judge);
    }
    if h.toAct == seat && h.street != Ended {
      ApplyKeepsChips(h, seat, a);
      AfterKeepsFolds(ApplyAction(h, seat, a), judge);
    }
  }

  lemma StartIsInPlay(h: Hand, deck: seq<Card>)
    requires Startable(h) && |deck| == 52
    ensures InPlay(Started(h, deck), h.smallBlind, h.bigBlind)
  {
    StartHandDeals(h, deck);
    if h.smallBlind <= h.bigBlind {
      StartIsOrdered(h, deck);
    }
  }

  lemma {:induction false} RunKeepsPlay(h: Hand, steps: seq<Step>, full: seq<Card>, sb: int, bb: int, judge: Judge)
    requires InPlay(h, sb, bb) && |full| == 52 && forall s :: s in steps ==> Drawn(s)
    ensures InPlay(Run(h, steps, full, judge), sb, bb)
    decreases |steps|
  {
    if steps != [] {
      assert Drawn(steps[0]);
      match steps[0] {
        case Begin(draws) => StartIsInPlay(h, Shuffled(full, draws));
        case Move(seat, a) => ActKeepsPlay(h, seat, a, sb, bb, judge);
        case Rotate =>
      }
      RunKeepsPlay(Next(h, steps[0], full, judge), steps[1..], full, sb, bb, judge);
    }
  }

  /** The first hand of a new table. */
  ghost function Opening(startingStack: int, sb: int, bb: int, button: Seat, draws: seq<nat>, full: seq<Card>): (r: Hand)
    requires startingStack >= 0 && sb >= 0 && bb >= 0 && |full| == 52 && ValidDraws(draws, 52)
    ensures InPlay(r, sb, bb) && Bag(r) == multiset(full) && Chips(r) == 2 * startingStack
  {
    var n := New(startingStack, sb, bb, button);
    StartHandDeals(n, Shuffled(full, draws));
    StartIsInPlay(n, Shuffled(full, draws));
    ShuffleIsPermutation(full, draws);
    Started(n, Shuffled(full, draws))
  }

  /** Every run of a table, from its constructor on, whatever the shuffles and the actions, as long as no hand
      is started with chips on the table: the two starting stacks are all the chips there ever are, no amount
      is negative or larger than them (so int32 arithmetic cannot overflow when they fit), each of the 52 cards
      is in one place, every street has its board, and until the hand ends every action makes progress exactly
      when the state is not stuck. */
  lemma EveryRunIsSound(startingStack: int, sb: int, bb: int, button: Seat, draws: seq<nat>, steps: seq<Step>, judge: Judge)
    requires startingStack >= 0 && sb >= 0 && bb > 0 && ValidDraws(draws, 52) && forall s :: s in steps ==> Drawn(s)
    requires |FullDeck()| == 52 && CleanRun(Opening(startingStack, sb, bb, button, draws, FullDeck()), steps, FullDeck(), judge)
    ensures var r := Run(Opening(startingStack, sb, bb, button, draws, FullDeck()), steps, FullDeck(), judge);
            && Chips(r) == 2 * startingStack
            && 0 <= r.pot <= 2 * startingStack
            && (forall s: Seat :: 0 <= r.stacks[s] <= 2 * startingStack && 0 <= r.bets[s] <= 2 * startingStack)
            && (forall c: Card :: Bag(r)[c] == 1)
            && (r.street != Ended ==>
                  && |r.board| == BoardSize(r.street)
                  && ((forall a :: Advances(r, Act(r, r.toAct, a, judge))) <==> !Stuck(r))
                  && (sb <= bb && Stuck(r) ==> r.bets[0] != r.bets[1] && (r.stacks[0] == 0 || r.stacks[1] == 0)))
  {
    forall c: Card ensures multiset(FullDeck())[c] == 1 {
      EveryCardOnce(c);
    }
    RunFrom(startingStack, sb, bb, button, draws, steps, FullDeck(), judge);
  }

  lemma RunFrom(startingStack: int, sb: int, bb: int, button: Seat, draws: seq<nat>, steps: seq<Step>,
                full: seq<Card>, judge: Judge)
    requires startingStack >= 0 && sb >= 0 && bb > 0 && ValidDraws(draws, 52) && forall s :: s in steps ==> Drawn(s)
    requires |full| == 52 && CleanRun(Opening(startingStack, sb, bb, button, draws, full), steps, full, judge)
    ensures var r := Run(Opening(startingStack, sb, bb, button, draws, full), steps, full, judge);
            && InPlay(r, sb, bb) && Chips(r) == 2 * startingStack && Bag(r) == multiset(full)
            && 0 <= r.pot <= 2 * startingStack
            && (forall s: Seat :: 0 <= r.stacks[s] <= 2 * startingStack && 0 <= r.bets[s] <= 2 * startingStack)
            && (r.street != Ended ==>
                  && ((forall a :: Advances(r, Act(r, r.toAct, a, judge))) <==> !Stuck(r))
                  && (sb <= bb && Stuck(r) ==> r.bets[0] != r.bets[1] && (r.stacks[0] == 0 || r.stacks[1] == 0)))
  {
    var h := Opening(startingStack, sb, bb, button, draws, full);
    var r := Run(h, steps, full, judge);
    RunKeepsChipsAndCards(h, steps, full, judge);
    RunKeepsPlay(h, steps, full, sb, bb, judge);
    if r.street != Ended {
      ProgressUnlessStuck(r, judge);
      if sb <= bb && Stuck(r) {
        StuckMeansAnEmptyStack(r);
      }
    }
  }

  // ----- A hand that cannot finish -----

  /** Only these matter to the witness. */
  predicate Money(h: Hand, stacks: seq<int>, bets: seq<int>, toAct: Seat) {
    Good(h) && h.stacks == stacks && h.bets == bets && h.toAct == toAct && h.street == Preflop && h.folded == [false, false]
  }

  lemma SmallBlinds(h: Hand, deck: seq<Card>, s0: int, s1: int)
    requires Startable(h) && |deck| == 52 && h.stacks == [s0, s1] && h.button == 0 && h.smallBlind == 1 && h.bigBlind == 2
    requires s0 >= 1 && s1 >= 2
    ensures Money(Started(h, deck), [s0 - 1, s1 - 2], [1, 2], 0)
  {
    StartHandDeals(h, deck);
  }

  lemma FoldPays(h: Hand, s0: int, s1: int, judge: Judge)
    requires Money(h, [s0, s1], [1, 2], 0) && h.pot == 0
    ensures var r := Act(h, 0, Fold, judge);
            && r.street == Ended && r.stacks == [s0, s1 + 3]
            && r.button == h.button && r.smallBlind == h.smallBlind && r.bigBlind == h.bigBlind
  {
    assert ApplyAction(h, 0, Fold).folded == [true, false];
  }

  lemma AllInPasses(h: Hand, s0: int, s1: int, b0: int, b1: int, seat: Seat, judge: Judge)
    requires Money(h, [s0, s1], [b0, b1], seat)
    requires if seat == 0 then b0 + s0 != b1 else b1 + s1 != b0
    ensures Money(Act(h, seat, AllIn, judge), if seat == 0 then [0, s1] else [s0, 0],
                  if seat == 0 then [b0 + s0, b1] else [b0, b1 + s1], 1 - seat)
  {
    ApplyKeepsChips(h, seat, AllIn);
  }

  /** Two stacks of ten with blinds of one and two, whatever the cards: the player folds the first hand; in the
      second both go all in, the player's nine against eleven, and the betting can never close. */
  lemma AShortAllInHappens(first: seq<nat>, second: seq<nat>, full: seq<Card>, judge: Judge)
    requires |full| == 52 && ValidDraws(first, 52) && ValidDraws(second, 52)
    ensures var folded := Act(Opening(10, 1, 2, 0, first, full), 0, Fold, judge);
            var r := Act(Act(Next(folded, Begin(second), full, judge), 0, AllIn, judge), 1, AllIn, judge);
            && folded.street == Ended && r.street == Preflop && ShortAllIn(r) && !r.folded[0] && !r.folded[1]
  {
    var h := FirstHand(first, full);
    FoldPays(h, 9, 8, judge);
    var again := SecondHand(Act(h, 0, Fold, judge), second, full, judge);
    AllInPasses(again, 8, 9, 1, 2, 0, judge);
    AllInPasses(Act(again, 0, AllIn, judge), 0, 9, 9, 2, 1, judge);
  }

  lemma FirstHand(draws: seq<nat>, full: seq<Card>) returns (h: Hand)
    requires |full| == 52 && ValidDraws(draws, 52)
    ensures h == Opening(10, 1, 2, 0, draws, full) && Money(h, [9, 8], [1, 2], 0)
    ensures h.pot == 0 && h.button == 0 && h.smallBlind == 1 && h.bigBlind == 2
  {
    SmallBlinds(New(10, 1, 2, 0), Shuffled(full, draws), 10, 10);
    h := Opening(10, 1, 2, 0, draws, full);
  }

  lemma SecondHand(folded: Hand, draws: seq<nat>, full: seq<Card>, judge: Judge) returns (h: Hand)
    requires Good(folded) && folded.stacks == [9, 11] && folded.button == 0 && folded.smallBlind == 1 && folded.bigBlind == 2
    requires |full| == 52 && ValidDraws(draws, 52)
    ensures h == Next(folded, Begin(draws), full, judge) && Money(h, [8, 9], [1, 2], 0)
  {
    SmallBlinds(folded, Shuffled(full, draws), 9, 11);
    h := Next(folded, Begin(draws), full, judge);
  }

  // ----- The Go struct -----

  class Game {
    var deck: seq<Card>
    var hole: seq<seq<Card>>
    var board: seq<Card>
    ghost var burned: seq<Card>
    var stacks: seq<int>
    var bets: seq<int>
    var pot: int
    var button: Seat
    var toAct: Seat
    var street: Street
    var folded: seq<bool>
    const smallBlind: int
    const bigBlind: int
    var winnerSeat: int
    var winRank: int
    var winBoard: bool

    ghost function View(): Hand
      reads this
    {
      Hand(deck, hole, board, burned, stacks, bets, pot, button, toAct, street, folded,
           smallBlind, bigBlind, winnerSeat, winRank, winBoard)
    }

    constructor (startingStack: int, sb: int, bb: int, button: Seat)
      requires startingStack >= 0 && sb >= 0 && bb >= 0
      ensures View() == New(startingStack, sb, bb, button)
    {
      deck, hole, board, burned := [], [[], []], [], [];
      stacks, bets, pot := [startingStack, startingStack], [0, 0], 0;
      this.button, toAct, street, folded := button, 0, Preflop, [false, false];
      smallBlind, bigBlind := sb, bb;
      winnerSeat, winRank, winBoard := -1, 0, false;
    }

    method StartHand(draws: seq<nat>)
      requires TwoSeats(View()) && ValidDraws(draws, 52)
      modifies this
      ensures View() == Started(old(View()), Shuffled(FullDeck(), draws))
      ensures Startable(old(View())) ==> Dealt(old(View()), View(), Shuffled(FullDeck(), draws))
    {
      ghost var before := View();
      if Startable(before) {
        HandIsDealt(before, Shuffled(FullDeck(), draws));
      }
      var cards := NewDeck();
      Shuffle(cards, draws);
      ResetCards(cards[..]);
      ResetBets();
      ResetWinner();
      BlindsAndHoles();
    }

    method ResetCards(shuffled: seq<Card>)
      modifies this`deck, this`board, this`burned
      ensures View() == old(View()).(deck := shuffled, board := [], burned := [])
    {
      deck := shuffled;
      board := [];
      burned := [];
    }

    method ResetBets()
      modifies this`bets, this`folded, this`pot
      ensures View() == old(View()).(bets := [0, 0], folded := [false, false], pot := 0)
    {
      bets, folded, pot := [0, 0], [false, false], 0;
    }

    method ResetWinner()
      modifies this`winnerSeat, this`winRank, this`winBoard, this`street
      ensures View() == old(View()).(winnerSeat := -1, winRank := 0, winBoard := false, street := Preflop)
    {
      winnerSeat, winRank, winBoard := -1, 0, false;
      street := Preflop;
    }

    method BlindsAndHoles()
      requires TwoSeats(View()) && |deck| >= 4
      modifies this`stacks, this`bets, this`hole, this`deck, this`toAct
      ensures View() == Opened(old(View()))
    {
      ghost var c := View();
      var sb: Seat := button;
      var bb: Seat := 1 - button;
      PostBet(sb, smallBlind);
      PostBet(bb, bigBlind);
      assert View() == Posted(Posted(c, c.button, c.smallBlind), 1 - c.button, c.bigBlind);
      DealHoles();
      toAct := sb;
    }

    method DealHoles()
      requires |deck| >= 4
      modifies this`deck, this`hole
      ensures hole == [old(deck)[..2], old(deck)[2..4]] && deck == old(deck)[4..]
    {
      ghost var before := deck;
      var first := DrawTwo();
      var second := DrawTwo();
      hole := [first, second];
      assert before[2..][..2] == before[2..4] && before[2..][2..] == before[4..];
    }

    method Draw() returns (c: Card)
      requires |deck| > 0
      modifies this`deck
      ensures c == old(deck)[0] && deck == old(deck)[1..]
    {
      c := deck[0];
      deck := deck[1..];
    }

    method DrawTwo() returns (pair: seq<Card>)
      requires |deck| >= 2
      modifies this`deck
      ensures pair == old(deck)[..2] && deck == old(deck)[2..]
    {
      var a := Draw();
      var b := Draw();
      pair := [a, b];
    }

    method Burn()
      modifies this`deck, this`burned
      ensures |old(deck)| > 0 ==> deck == old(deck)[1..] && burned == old(burned) + old(deck)[..1]
      ensures |old(deck)| == 0 ==> deck == old(deck) && burned == old(burned)
    {
      if |deck| > 0 {
        burned := burned + deck[..1];
        deck := deck[1..];
      }
    }

    method PostBet(seat: Seat, amount: int)
      requires TwoSeats(View())
      modifies this`stacks, this`bets
      ensures View() == Posted(old(View()), seat, amount)
    {
      var amount := amount;
      if amount > stacks[seat] {
        amount := stacks[seat];
      }
      stacks := stacks[seat := stacks[seat] - amount];
      bets := bets[seat := bets[seat] + amount];
    }

    method PlayerAction(e: C.Enumerator, a: Action) returns (ended: bool)
      requires Good(View()) && e.CachedFor(5)
      modifies this, e
      ensures e.CachedFor(5) && View() == Act(old(View()), 0, a, Evaluator())
      ensures ended <==> old(street) != Ended && street == Ended
    {
      ended := TakeTurn(e, 0, a);
    }

    /** The bot's policy picks `a`; what it may pick is not restricted here. */
    method StepBot(e: C.Enumerator, a: Action) returns (ended: bool)
      requires Good(View()) && e.CachedFor(5)
      modifies this, e
      ensures e.CachedFor(5) && View() == Act(old(View()), 1, a, Evaluator())
      ensures ended <==> old(street) != Ended && street == Ended
    {
      ended := TakeTurn(e, 1, a);
    }

    method TakeTurn(e: C.Enumerator, seat: Seat, a: Action) returns (ended: bool)
      requires Good(View()) && e.CachedFor(5)
      modifies this, e
      ensures e.CachedFor(5) && View() == Act(old(View()), seat, a, Evaluator())
      ensures ended <==> old(street) != Ended && street == Ended
    {
      if toAct != seat || street == Ended {
        return false;
      }
      ApplyKeepsChips(View(), seat, a);
      DoAction(seat, a);
      ended := Advance(e);
    }

    method DoAction(seat: Seat, a: Action)
      requires TwoSeats(View())
      modifies this`stacks, this`bets, this`folded
      ensures View() == ApplyAction(old(View()), seat, a)
      ensures Good(old(View())) ==> Acted(old(View()), View(), seat, a)
    {
      ghost var before := View();
      if Good(before) {
        ActionsDo(before, seat, a);
      }
      var toCall := bets[1 - seat] - bets[seat];
      match a {
        case Fold =>
          folded := folded[seat := true];
        case CheckCall =>
          if toCall > 0 {
            PostBet(seat, toCall);
          }
        case Raise =>
          if toCall > 0 {
            PostBet(seat, toCall);
          }
          PostBet(seat, bigBlind);
        case AllIn =>
          PostBet(seat, stacks[seat]);
      }
    }

    method Advance(e: C.Enumerator) returns (ended: bool)
      requires Good(View()) && street != Ended && e.CachedFor(5)
      modifies this, e
      ensures e.CachedFor(5) && View() == AfterAction(old(View()), Evaluator())
      ensures ended <==> street == Ended
    {
      if folded[0] || folded[1] {
        FinishByFold();
        return true;
      }
      if bets[0] != bets[1] {
        toAct := 1 - toAct;
        return false;
      }
      ended := FinishStreet(e);
    }

    method FinishByFold()
      requires TwoSeats(View())
      modifies this
      ensures View() == EndByFold(old(View()))
      ensures old(folded)[0] != old(folded)[1] ==>
                var w := if old(folded)[0] then 1 else 0;
                winnerSeat == w && stacks[w] == old(stacks)[w] + old(pot) + old(bets)[0] + old(bets)[1]
                && stacks[1 - w] == old(stacks)[1 - w]
    {
      var winner := 0;
      if folded[0] {
        winner := 1;
      }
      stacks := stacks[winner := stacks[winner] + pot + bets[0] + bets[1]];
      pot := 0;
      bets := [0, 0];
      winnerSeat := winner;
      street := Ended;
    }

    method DealStreet(n: nat, next: Street)
      requires |deck| >= n + 1
      modifies this
      ensures View() == Deal(old(View()), n, next)
    {
      Burn();
      var i := 0;
      while i < n
        invariant 0 <= i <= n
        invariant deck == old(deck)[i + 1..] && board == old(board) + old(deck)[1..i + 1]
        invariant View() == old(View()).(deck := deck, board := board, burned := old(burned) + old(deck)[..1])
      {
        OneMoreDealt(old(deck), i);
        var c := Draw();
        board := board + [c];
        i := i + 1;
      }
      street := next;
      toAct := 1 - button;
    }

    method FinishStreet(e: C.Enumerator) returns (ended: bool)
      requires Good(View()) && street != Ended && e.CachedFor(5)
      modifies this, e
      ensures e.CachedFor(5) && View() == CloseStreet(old(View()), Evaluator())
      ensures ended <==> street == Ended
    {
      pot := pot + bets[0] + bets[1];
      bets := [0, 0];
      assert View() == Collect(old(View()));
      if street == Preflop {
        DealStreet(3, Flop);
      } else if street == Flop {
        DealStreet(1, Turn);
      } else if street == Turn {
        DealStreet(1, River);
      } else {
        street := Showdown;
        ShowHands(e);
        return true;
      }
      return false;
    }

    method ShowHands(e: C.Enumerator)
      requires TwoSeats(View()) && e.CachedFor(5) && pot >= 0
      modifies this, e
      ensures e.CachedFor(5) && View() == ResolveShowdown(old(View()), Evaluator())
      ensures old(bets) == [0, 0] ==>
                Paid(View(), old(stacks)[0], old(stacks)[1], old(pot),
                     Evaluator()(old(hole)[0] + old(board)), Evaluator()(old(hole)[1] + old(board)))
    {
      var pr, ptb := HandEval.EvaluateBest(e, hole[0] + board);
      var br, btb := HandEval.EvaluateBest(e, hole[1] + board);
      PayOut(pr, ptb, br, btb);
    }

    method PayOut(pr: int, ptb: int, br: int, btb: int)
      requires TwoSeats(View()) && pot >= 0
      modifies this
      ensures View() == Award(old(View()), Score(pr, ptb), Score(br, btb))
      ensures old(bets) == [0, 0] ==>
                Paid(View(), old(stacks)[0], old(stacks)[1], old(pot), Score(pr, ptb), Score(br, btb))
    {
      ghost var before := View();
      if before.bets == [0, 0] {
        AwardPays(before, Score(pr, ptb), Score(br, btb));
      }
      if pr > br || (pr == br && ptb > btb) {
        PayWinner(0, pr);
      } else if br > pr || (br == pr && btb > ptb) {
        PayWinner(1, br);
      } else {
        SplitPot(pr);
      }
    }

    method PayWinner(winner: Seat, rank: int)
      requires TwoSeats(View())
      modifies this
      ensures View() == old(View()).(stacks := old(stacks)[winner := old(stacks)[winner] + old(pot)], pot := 0,
                                     winnerSeat := winner, winRank := rank, winBoard := true, street := Ended)
    {
      stacks := stacks[winner := stacks[winner] + pot];
      pot, winnerSeat, winRank, winBoard, street := 0, winner, rank, true, Ended;
    }

    /** The odd chip goes to the player. */
    method SplitPot(rank: int)
      requires TwoSeats(View()) && pot >= 0
      modifies this
      ensures View() == old(View()).(stacks := [old(stacks)[0] + old(pot) / 2 + old(pot) % 2, old(stacks)[1] + old(pot) / 2],
                                     pot := 0, winnerSeat := -1, winRank := rank, winBoard := true, street := Ended)
    {
      stacks := [stacks[0] + pot / 2, stacks[1] + pot / 2];
      if pot % 2 == 1 {
        stacks := stacks[0 := stacks[0] + 1];
      }
      pot, winnerSeat, winRank, winBoard, street := 0, -1, rank, true, Ended;
    }
  }
}
