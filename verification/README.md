# A verified model of the ssh.night.ms core

This project models, in Dafny 4.11, the parts of the ssh.night.ms bulletin board server whose correctness
rests on an invariant, a bound or an encoding rather than on a library call, and proves what they are for.
Code that changes state is modelled as classes and methods with the source's own steps; each method is tied
to a specification function, and the theorems are about those functions: over every input, and over every
run where the code is a state machine.

| file | what it models | what is proved of it |
|---|---|---|
| `Common.dfy` | definitions several components share | |
| `Polyline.dfy` | Bresenham lines, thick lines, markers | exact pixels, half-pixel bound, connectedness, union of disks |
| `Cards.dfy`, `Combinations.dfy`, `RankCounts.dfy`, `Scores.dfy`, `HandEval.dfy`, `Categories.dfy` | deck, shuffle, 5-subset search, hand classes | the shuffle is a bijection, the enumeration exact, the search a lexicographic maximum in the order of the categories |
| `Blackjack.dfy`, `Holdem.dfy` | the two card games | conservation of cards and chips, who wins what, no under-run, exact conditions for progress |
| `Sessions.dfy`, `DeviceCode.dfy`, `RateLimit.dfy` | Redis protocols with expiring keys and a clock | index invariants, how long a session lasts, spacing of requests, what a poll reports, lock schedules, final results stay final |
| `Refresher.dfy` | the token refresher | a starvation bound, counter and refresh-token invariants |
| `Text.dfy`, `Base64.dfy`, `Argon2id.dfy` | password records | printing and parsing undo each other, drift is detected exactly |
| `Palette.dfy`, `Dither.dfy`, `Terminal.dfy`, `AnsiConvert.dfy`, `HalfBlock.dfy` | pictures as SGR text | in-place dithering gives the one picture its shares describe; the suppressed stream decodes to the picture |
| `ChordFilter.dfy` | the keystroke filter of the browser bridge | the same answer whatever the chunks |
| `Mosaic.dfy` | map tiles under a viewport | an exact cover by floor division |
| `Locations.dfy` | saved locations and their mirror | the mirror follows the first row; every operation's effect on the list |
| `Wall.dfy` | broadcast fan-out | ordered, nearly complete delivery; eviction on the fourth miss |

`dafny verify dfyconfig.toml` checks everything.

## Conventions

Redis and Postgres are maps (or, for an ordered table, a list of rows) with the semantics of the commands the
code sends; a call of the service is one step unless a theorem says otherwise. Random draws, salts, new ids,
clock readings and what a remote party answers are arguments. Argon2id is a function argument. Where a promise
fails for some inputs the code is kept as it is and the exact condition is proved, with a concrete run or state
beside it:

- `Holdem.ProgressUnlessStuck`, with `Holdem.AShortAllInHappens`
- `Sessions.GhostExactlyAfterALateFinish`, with `Sessions.AGhostCanAppear`
- `RateLimit.LocksStandExactlyWithLongMemory`, with `RateLimit.ShortMemoryForgets`
- `DeviceCode.SlowDownAddsFiveSeconds`, with `DeviceCode.SlowDownCanSpeedUp`
- `DeviceCode.OverlapLeavesTwoFlows`, with `DeviceCode.TwoFlowsAppear`
- `Argon2id.LegacyAcceptance`, with `Argon2id.WrappedSizesPanic`
- `Locations.PrimaryIsMirrored`, with `Locations.AMirrorGoesWrong`
- `HandEval.ClassIsBest`, with `HandEval.FiveAces`
- `Combinations.CacheIgnoresTheSubsetSize`, with `Combinations.AWrongSizeComesBack`
- `Refresher.NoRowStarves`, where `Refresher.BlockedRowStarves` says what happens without its condition (rows of equal
  expiry aside), with `Refresher.AWaitWithoutEnd`

Where code and comment differ the model follows the code: `internal/doors/holdem/holdem.go:217-219` promises that an
action hands over to the other seat or to the next street, but after a short all-in the seats can hand over to each
other for ever (`Holdem.ShortAllInNeverEnds`); `internal/auth/devicecode/devicecode.go:269` says slow_down waits five seconds
longer, which is so exactly for positive intervals; `internal/web/sessions.go:220-223` calls every listed entry
an active session, which can fail after an interrupted read (`Sessions.AGhostCanAppear`).

## Model

| member | source | states |
|---|---|---|
| Polyline.LineJoinsItsEndpoints | internal/imaging/polyline.go:12-46 | the closed form of a line starts at the first endpoint and is at the second after max(abs dx, abs dy) steps |
| Polyline.LineIsConnected | internal/imaging/polyline.go:12-46 | consecutive pixels differ by at most 1 per axis and by exactly 1 on the longer axis |
| Polyline.LineStaysWithinHalfAPixel | internal/imaging/polyline.go:12-46 | every pixel is within half a pixel of the true line: 2(j*w - i*h) stays within the number of steps, and no pixel leaves the bounding box |
| Polyline.LineStep | internal/imaging/polyline.go:24-45 | the error term decides exactly the closed form's next pixel, and neither early return inside the loop can fire |
| Polyline.LineWalks | internal/imaging/polyline.go:12-46 | the closed form's pixels and error terms are a walk the loop can follow from one endpoint to the other |
| Polyline.LastPixelIsTheEnd | internal/imaging/polyline.go:25-27 | the loop's exit test holds at the last pixel and at no earlier one |
| Polyline.Advance | internal/imaging/polyline.go:28-43 | for all widths and heights the comparison of twice the error with dx and dy moves to the rounding of the ideal line at the next step, and stays inside the far side (the non-linear heart of the loop) |
| Polyline.RoundIsNearest | internal/imaging/polyline.go:12-46 | the reference rounding is the unique integer with 2dr - d <= 2n < 2dr + d |
| Polyline.DrawLine | internal/imaging/polyline.go:12-46 | the plots are exactly the max(abs dx, abs dy) + 1 pixels of the closed form in order, and exactly those pixels inside the image are painted; clipped pixels are silently dropped |
| Polyline.Trail | internal/imaging/polyline.go:13-45 | the loop follows the walk it is given pixel by pixel and paints exactly those pixels |
| Polyline.DrawThickLine | internal/imaging/polyline.go:96-137 | paints exactly the union of the radius disks centred on DrawLine's pixels |
| Polyline.StampDisk | internal/imaging/polyline.go:109-117 | the square sweep paints exactly the disk, for every radius |
| Polyline.DiskFitsItsSquare | internal/imaging/polyline.go:109-117 | the disk never reaches outside the square that is swept |
| Polyline.DrawMarker | internal/imaging/polyline.go:78-91 | paints exactly the disk; a negative radius counts as zero |
| Polyline.DrawPolyline | internal/imaging/polyline.go:60-73 | paints exactly the union of its segments' lines, thickened when the radius is positive |
| Polyline.Canvas.Set | internal/imaging/polyline.go:12-46 | a plot changes that pixel alone, and nothing outside the image |
| Cards.NewDeck | internal/doors/cards/cards.go:58-66 | the new deck is the full deck in suit and rank order |
| Cards.EveryCardOnce | internal/doors/cards/cards.go:58-66 | the full deck holds each of the 52 cards exactly once, each at the place its suit and rank give it |
| Cards.Shuffle | internal/doors/cards/cards.go:70-75 | the in-place loop computes the specification's shuffle of the old contents for the numbers drawn |
| Cards.ShuffleIsPermutation | internal/doors/cards/cards.go:70-75 | for every choice sequence the multiset of cards is kept |
| Cards.ShuffleIsInjective | internal/doors/cards/cards.go:70-75 | on distinct cards different choice sequences give different orders |
| Cards.ShuffleIsOnto | internal/doors/cards/cards.go:70-75 | every reordering comes from some choice sequence |
| Cards.ShuffleIsBijection | internal/doors/cards/cards.go:70-75 | an arrangement is reached exactly when it is a permutation, and by one choice sequence only |
| Combinations.ChoicesAreTheSubsets | internal/doors/cards/cards.go:189-211 | a list is enumerated exactly when it is a strictly increasing k-subset of [0, n) |
| Combinations.ChoicesAreSorted | internal/doors/cards/cards.go:189-211 | the enumeration is in strict lexicographic order, so each subset comes once |
| Combinations.ExtendIsExact | internal/doors/cards/cards.go:193-207 | the recursion from any prefix lists exactly the subsets extending it |
| Combinations.ExtendCount | internal/doors/cards/cards.go:189-211 | there are n-choose-k of them |
| Combinations.Enumerator.Combinations | internal/doors/cards/cards.go:189-211 | returns the cached list or computes it, caches it, and leaves every other entry alone; right for a caller that always asks for one size |
| Combinations.Enumerator.Rec | internal/doors/cards/cards.go:193-207 | the recursive filling of one index buffer appends exactly the specification's list and restores the prefix |
| Combinations.CacheIgnoresTheSubsetSize | internal/doors/cards/cards.go:184-192 | after any calls from an empty cache, a call gets the subsets of its own size exactly when it is the first for its n, the first asked for the same size, or neither size has a subset (the code's one caller always asks for five) |
| Combinations.SizesDiffer | internal/doors/cards/cards.go:189-211 | two different sizes have the same enumeration exactly when neither has a subset |
| Combinations.AWrongSizeComesBack | internal/doors/cards/cards.go:184-192 | such calls: five of seven, then two of seven |
| RankCounts.CountRanks | internal/doors/cards/cards.go:241-244 | the counting loop yields the multiplicity of every rank present |
| RankCounts.TallyGroups | internal/doors/cards/cards.go:245-259 | one pass over the counts, in any order, finds the numbers of pairs, triples and quads and the highest pair |
| Scores.MaxIsMaximal | internal/doors/cards/cards.go:147-159 | nothing in a list beats the running best |
| Scores.MaxIsReached | internal/doors/cards/cards.go:147-159 | when every score is positive the running best is one of the list (the start value zero is never returned) |
| Scores.FirstBestNext | internal/doors/cards/cards.go:147-159 | one step of the search keeps the maximum and its first position |
| HandEval.Evaluate | internal/doors/cards/cards.go:215-282 | five cards are classified as the declarative hand class |
| HandEval.ClassIsBest | internal/doors/cards/cards.go:215-282 | the class is the highest category the hand meets exactly when no five cards share a rank |
| Categories.OneCategory | internal/doors/cards/cards.go:215-282 | five different cards are of exactly one of the ten categories, each described on its own by suits, runs and how often ranks occur |
| Categories.ClassIsPlace | internal/doors/cards/cards.go:79-92 | the class of such a hand is the place of its category in the list the source orders them by |
| Categories.BestCategory | internal/doors/cards/cards.go:125-162 | the category reported for five or more different cards is the highest among all their fives |
| Categories.HigherCategoryWins | internal/doors/cards/cards.go:79-162 | a hand with five of some category outscores every hand whose fives are all of lower categories, whatever the ranks: a straight beats three of a kind, and so for each pair |
| Categories.NeighboursAreOrdered | internal/doors/cards/cards.go:79-162 | five cards against five: the one of the later category scores higher, and equal ranks mean equal categories |
| Categories.SpreadOut | internal/doors/cards/cards.go:215-282 | a run of five, or five different cards of one suit, hold no rank twice |
| HandEval.FiveAces | internal/doors/cards/cards.go:215-282 | five equal ranks: such a hand, whose four of a kind is not found |
| HandEval.FourSuitsOnly | internal/doors/cards/cards.go:215-282 | five different cards never share one rank, so every dealt hand qualifies |
| HandEval.InARowWhenSorted | internal/doors/cards/cards.go:235-239 | the sorted-rank test recognises exactly the runs of five and the wheel |
| HandEval.IsStraight | internal/doors/cards/cards.go:284-291 | true exactly when the sorted ranks are consecutive |
| HandEval.IsFlush | internal/doors/cards/cards.go:227-233 | true exactly when all five share a suit |
| HandEval.SortSorts | internal/doors/cards/cards.go:219-225 | the reference sort is an ascending permutation |
| HandEval.TiebreakOf | internal/doors/cards/cards.go:171-182 | packs the ranks, highest first, in base 16 |
| HandEval.PackIsLexicographic | internal/doors/cards/cards.go:171-182 | packed numbers compare exactly as the rank lists do lexicographically |
| HandEval.TieBreakComparesHighCardsFirst | internal/doors/cards/cards.go:164-182 | tiebreaks order hands by highest card, then next, and are equal exactly when the ranks are the same multiset |
| HandEval.TieBreakIsPositive | internal/doors/cards/cards.go:171-182 | every tiebreak is positive, so the search's zero start loses to every hand |
| HandEval.BestIsTheMaximum | internal/doors/cards/cards.go:130-162 | no five of the cards beat the result, and some five reach it |
| HandEval.Search | internal/doors/cards/cards.go:143-160 | the loop returns the maximum over the index lists and the first list that reaches it |
| HandEval.EvaluateBestIndices | internal/doors/cards/cards.go:134-162 | five or more cards: five strictly increasing in-range indices whose cards have exactly the returned value, the lexicographic maximum over all 5-subsets and the first to reach it; fewer: none |
| HandEval.EvaluateBest | internal/doors/cards/cards.go:125-128 | the value alone, for any number of cards |
| Blackjack.ValueIsBest | internal/doors/blackjack/blackjack.go:179-198 | the total is the largest one at most 21 over all ace assignments, else the smallest, and it is soft exactly when an ace counts 11 |
| Blackjack.Value | internal/doors/blackjack/blackjack.go:179-198 | the loop over cards and aces computes that total |
| Blackjack.Game.HandValue | internal/doors/blackjack/blackjack.go:172-175 | the total without the softness |
| Blackjack.DealerTakesInOrder | internal/doors/blackjack/blackjack.go:144-167 | the dealer's cards are the next ones of the deck, in order |
| Blackjack.DealerFollowsTheRule | internal/doors/blackjack/blackjack.go:144-167 | before every card the dealer took, the rule asked for one |
| Blackjack.DealerRuns | internal/doors/blackjack/blackjack.go:144-167 | the dealer's draws end, never on an empty deck, and the final hand asks for no card: at least 17 and not soft 17 |
| Blackjack.ActKeepsCards | internal/doors/blackjack/blackjack.go:102-137 | every action keeps deck plus hands as a multiset |
| Blackjack.PlayKeepsCards | internal/doors/blackjack/blackjack.go:102-137 | so does every sequence of actions |
| Blackjack.EveryRunIsFair | internal/doors/blackjack/blackjack.go:60-167 | after every shuffle and every sequence of actions, deck plus hands are the 52 cards and a settled hand has the outcome its totals give |
| Blackjack.FinishedIsFinal | internal/doors/blackjack/blackjack.go:102-137 | no action changes a finished game |
| Blackjack.ActPlays | internal/doors/blackjack/blackjack.go:102-167 | what each action does to cards, flags and outcome, stated on the cards before and after: over 21 loses and shows the hole card, a double is one card on two cards only, and the dealer then plays out |
| Blackjack.DealerTurnPlays | internal/doors/blackjack/blackjack.go:144-167 | the dealer takes the next cards of the deck while the total is below 17 or a soft 17, and the outcome is the one the two totals give |
| Blackjack.OpeningDeals | internal/doors/blackjack/blackjack.go:60-77 | the first two cards are the player's and the next two the dealer's; the hand is over at once exactly when the player has 21, as a push exactly when the dealer has it too |
| Blackjack.EnoughCards | internal/doors/blackjack/blackjack.go:79-83 | no draw the rules ask for meets an empty deck |
| Blackjack.Game.constructor | internal/doors/blackjack/blackjack.go:60-77 | deals two cards each from a shuffled deck and settles naturals |
| Blackjack.Game.PeekForNaturals | internal/doors/blackjack/blackjack.go:66-75 | settles at once when the player has 21: a push if the dealer has it too |
| Blackjack.Game.Hit | internal/doors/blackjack/blackjack.go:102-112 | one card for the player; over 21 loses at once; at 21 the player still decides |
| Blackjack.Game.Stand | internal/doors/blackjack/blackjack.go:115-120 | the dealer plays |
| Blackjack.Game.Double | internal/doors/blackjack/blackjack.go:124-137 | allowed on two cards only; one card, then the dealer plays unless the player is over 21 |
| Blackjack.Game.DealerPlay | internal/doors/blackjack/blackjack.go:144-167 | draws and settles as the specification |
| Blackjack.Game.Settle | internal/doors/blackjack/blackjack.go:154-166 | compares the totals |
| Blackjack.Game.Draw | internal/doors/blackjack/blackjack.go:79-83 | takes the top card |
| Holdem.EveryRunIsSound | internal/doors/holdem/holdem.go:89-320 | from the constructor on, for every stack, blinds, button, shuffles and actions, with hands begun at pot and bets zero: the two starting stacks are all the chips there ever are, no amount is negative or exceeds them, each of the 52 cards is in one place, the board is the street's, and until the hand ends every action makes progress exactly when the state is not stuck, which takes an empty stack |
| Holdem.RunKeepsChipsAndCards | internal/doors/holdem/holdem.go:102-320 | over every run of hands begun with pot and bets at zero, from any state of a hand: chips are constant, no amount is negative or exceeds them, the cards are those of the full deck from the first deal on, and the board's size is the street's |
| Holdem.StartHandDeals | internal/doors/holdem/holdem.go:102-124 | for any two seats without negative amounts: the blinds are posted and four hole cards dealt, the new hand holds exactly the deck's cards and the chips behind; chips are kept exactly when pot and bets were zero, since they are cleared |
| Holdem.Act | internal/doors/holdem/holdem.go:174-215 | every action by either seat keeps the invariant, the chips and the cards, out of turn included |
| Holdem.PostBetKeepsChips | internal/doors/holdem/holdem.go:134-140 | a bet capped by the stack moves chips and makes none |
| Holdem.CloseKeepsCards | internal/doors/holdem/holdem.go:238-262 | burning and dealing keep every card and never draw from an empty deck |
| Holdem.AfterKeepsAll | internal/doors/holdem/holdem.go:220-320 | fold, next seat, next street or showdown: chips and cards are kept |
| Holdem.ShowdownPaysTheBetterHand | internal/doors/holdem/holdem.go:238-320 | any action on the river that leaves both seats in with level bets: the seat whose seven cards are higher by (rank, tiebreak) ends with its own chips plus the whole pot and is the winner, the other keeps its own; equal scores split the pot, the odd chip to the player, with no winner; the rank shown is the better hand's |
| Holdem.AwardPays | internal/doors/holdem/holdem.go:289-319 | the payment itself, for any two scores |
| Holdem.FoldGivesAll | internal/doors/holdem/holdem.go:220-281 | whichever seat folds, in any state of a hand: the other takes pot and bets and is the winner, and the folder keeps its stack |
| Holdem.ActionsDo | internal/doors/holdem/holdem.go:197-215 | each action in figures: a call adds the difference as far as the stack goes, a raise the big blind on top, an all-in everything, a fold nothing; the other seat and the cards stay |
| Holdem.UnevenPassesTheTurn | internal/doors/holdem/holdem.go:220-234 | an action that leaves bets uneven hands the turn to the other seat and does nothing else |
| Holdem.LevelDealsTheNextStreet | internal/doors/holdem/holdem.go:238-262 | level bets before the river go to the pot, one card is burned, the next three or one are turned over, and the seat without the button acts |
| Holdem.HandIsDealt | internal/doors/holdem/holdem.go:102-124 | the button posts the small blind and acts first, the other seat the big one, each as far as its stack goes; the first two cards are the player's and the next two the bot's |
| Holdem.ActKeepsOrder | internal/doors/holdem/holdem.go:197-262 | while both stacks are positive the seat to act is never ahead on bets |
| Holdem.StartIsOrdered | internal/doors/holdem/holdem.go:102-124 | a hand with small blind at most big blind starts with the seat to act not ahead, from the constructor's state too |
| Holdem.RunKeepsPlay | internal/doors/holdem/holdem.go:102-262 | over every run the blinds stay, the order of bets holds and nobody has folded while a hand is on |
| Holdem.ProgressUnlessStuck | internal/doors/holdem/holdem.go:197-262 | every action ends the hand or lowers (streets left, chips behind) exactly when the state is not one of uneven bets where the caller has nothing to add |
| Holdem.StuckMeansAnEmptyStack | internal/doors/holdem/holdem.go:197-234 | being stuck means uneven bets and an empty stack |
| Holdem.HandsEnd | internal/doors/holdem/holdem.go:174-262 | a run that never gets stuck has at most a stated number of actions |
| Holdem.ShortAllInNeverEnds | internal/doors/holdem/holdem.go:197-234 | after a short all-in no sequence of actions without a fold ends the hand |
| Holdem.AShortAllInHappens | internal/doors/holdem/holdem.go:89-234 | such a run from the constructor: stacks of ten, blinds one and two, a fold, then two all-ins, whatever the cards |
| Holdem.StuckStaysExactlyAfterAShortAllIn | internal/doors/holdem/holdem.go:197-234 | a call from a stuck state stays stuck exactly when the short stack is the one behind on bets |
| Holdem.Game.constructor | internal/doors/holdem/holdem.go:89-98 | builds exactly the state the runs start from: equal stacks, nothing dealt or at stake |
| Holdem.Game.StartHand | internal/doors/holdem/holdem.go:102-124 | performs the specification's start for the shuffle drawn: blinds, hole cards and first turn as HandIsDealt states them |
| Holdem.Game.PostBet | internal/doors/holdem/holdem.go:134-140 | performs the capped bet |
| Holdem.Game.DoAction | internal/doors/holdem/holdem.go:197-215 | the four actions, with the figures ActionsDo states |
| Holdem.Game.Advance | internal/doors/holdem/holdem.go:220-234 | fold, next seat or close of street |
| Holdem.Game.FinishStreet | internal/doors/holdem/holdem.go:238-262 | collects bets, deals the next street or shows down |
| Holdem.Game.DealStreet | internal/doors/holdem/holdem.go:241-254 | burns one and deals the street |
| Holdem.Game.Burn | internal/doors/holdem/holdem.go:264-268 | drops the top card if there is one |
| Holdem.Game.FinishByFold | internal/doors/holdem/holdem.go:270-281 | the seat that has not folded takes pot and bets and is the winner |
| Holdem.Game.ShowHands | internal/doors/holdem/holdem.go:283-320 | the better of the two best fives of seven takes the pot; a tie is split, the odd chip to the player |
| Holdem.Game.PayOut | internal/doors/holdem/holdem.go:289-319 | the hand with the higher score by (rank, tiebreak) takes the pot and is the winner; equal scores split it and there is none |
| Holdem.Game.PayWinner | internal/doors/holdem/holdem.go:309-319 | the winner takes the pot and gives the hand its rank |
| Holdem.Game.SplitPot | internal/doors/holdem/holdem.go:292-305 | a tie is split, the odd chip goes to the player |
| Holdem.Game.PlayerAction | internal/doors/holdem/holdem.go:174-180 | ignored out of turn or after the end; otherwise one action, reporting whether the hand ended |
| Holdem.Game.StepBot | internal/doors/holdem/holdem.go:185-192 | the same for the bot, whose choice is an input |
| Holdem.Game.TakeTurn | internal/doors/holdem/holdem.go:174-192 | one turn of either seat is the specification's step |
| Sessions.ApplyKeepsInv | internal/web/sessions.go:92-298 | every step (set, whole read, the two halves of a read, clear, revoke, clear-all, list, time) keeps: a live session's sid is in its user's live index, and the index expires no earlier |
| Sessions.RunKeepsInv | internal/web/sessions.go:92-298 | so does every run |
| Sessions.ClearAllEndsEverySession | internal/web/sessions.go:198-218 | after any run, clear-all ends exactly that user's sessions |
| Sessions.RevokeEndsOneSession | internal/web/sessions.go:265-287 | revoke ends that session if it is the user's and touches no other; clear ends one whoever owns it |
| Sessions.GoneStaysGone | internal/web/sessions.go:127-192 | a removed sid is refused by every read that starts later, however half-finished reads interleave |
| Sessions.SessionSlides | internal/web/sessions.go:92-154 | after a login, a Read that found the user, or a refresh that came while the session lived, and any further steps that leave the session alone, a Read finds the user exactly when less than the timeout has passed since; the time of last use is that moment's |
| Sessions.SessionLasts | internal/web/sessions.go:92-298 | whatever other sessions and users do, a session left alone keeps its row and is accepted exactly until its expiry |
| Sessions.ReadSlides | internal/web/sessions.go:127-154 | such a Read sets the time of last use to now and the expiry to now plus the timeout, and changes neither user, creation time, browser nor address, nor any other row |
| Sessions.SetWrites | internal/web/sessions.go:92-119 | a login writes user, browser, address, creation time, last use and expiry, and no other row |
| Sessions.LogoutRemovesTheSession | internal/web/sessions.go:171-287 | clear and an owner's revoke remove exactly that row and its index entry, anyone else's revoke nothing, clear-all every indexed row of the user and the index |
| Sessions.ListIsExactWithoutGhosts | internal/web/sessions.go:226-259 | a listing holds every live session of the user, and nothing else exactly when the index holds no live row without uid; GhostExactlyAfterALateFinish says which step leaves one |
| Sessions.GhostExactlyAfterALateFinish | internal/web/sessions.go:127-154 | a step leaves such a row exactly when it is the second half of a read whose session has gone while the index still holds its id |
| Sessions.GhostsNeedALateFinish | internal/web/sessions.go:127-154 | a run without such a late refresh, whatever else interleaves, leaves none |
| Sessions.WholeReadsLeaveNoGhosts | internal/web/sessions.go:127-154 | while reads run as one step no such row appears |
| Sessions.WholeReadsNameEveryRow | internal/web/sessions.go:127-154 | while reads run as one step every row names its user, indexed or not |
| Sessions.ListIsExactlyTheSessions | internal/web/sessions.go:226-259 | at the end of every run without a late refresh List returns exactly the user's live sessions, each once, newest first |
| Sessions.WholeReadsListExactlyTheSessions | internal/web/sessions.go:226-259 | in particular at the end of every run of whole reads |
| Sessions.AGhostCanAppear | internal/web/sessions.go:127-154 | a read whose refresh lands after a removal leaves one: a concrete run |
| Sessions.SortIsStable | internal/web/sessions.go:292-298 | newest first, a permutation, equal times keep their order |
| Sessions.SortByLastSeenDesc | internal/web/sessions.go:292-298 | the in-place insertion loop computes that order |
| Sessions.Bubble | internal/web/sessions.go:292-298 | one inner loop inserts one element and leaves the later ones alone |
| Sessions.SessionStore.Set | internal/web/sessions.go:92-119 | writes the row and the index entry with both expiries, field by field |
| Sessions.SessionStore.Read | internal/web/sessions.go:127-154 | the uid of a live session, whose expiry then slides and whose last use is now; otherwise none |
| Sessions.SessionStore.Touch | internal/web/sessions.go:143-153 | refreshes row and index, sliding the expiry of a live row and changing nothing else of it; on a missing row it creates one without uid |
| Sessions.SessionStore.Clear | internal/web/sessions.go:171-192 | removes the row and its index entry |
| Sessions.SessionStore.ClearAllForUser | internal/web/sessions.go:198-218 | removes every indexed row and the index |
| Sessions.SessionStore.RevokeSession | internal/web/sessions.go:265-287 | removes the row only when its uid matches, the index entry always |
| Sessions.SessionStore.Gather | internal/web/sessions.go:226-256 | lists live rows and drops dead index entries |
| Sessions.SessionStore.List | internal/web/sessions.go:226-259 | that list, newest first, each entry showing its row's browser, address, creation and last use |
| Argon2id.HashThenVerify | internal/auth/argon2id.go:59-115 | Verify under q of the record Hash wrote under p accepts the password and asks for a rehash exactly when p and q differ, for all passwords, salts and parameters |
| Argon2id.VerifyOfHash | internal/auth/argon2id.go:102-115 | any other password is accepted exactly when Argon2id gives it the same key; a panic of Argon2id is the only way to get no answer |
| Argon2id.ReadUndoesPhc | internal/auth/argon2id.go:205-242 | every written record reads back to its costs, salt and key |
| Argon2id.RecordsAreDistinct | internal/auth/argon2id.go:72-80 | different costs, salts or keys give different records |
| Argon2id.PhcIsRecord | internal/auth/argon2id.go:72-80 | the record is the text $argon2id$v=19$m=,t=,p=$salt$key with the numbers in decimal and salt and key in base64 |
| Argon2id.OnlyRecordsAreRead | internal/auth/argon2id.go:205-242 | a stored text is read as a record only if it has the two fixed fields, a cost list, and salt and key in base64 |
| Argon2id.AcceptanceNeedsTheKey | internal/auth/argon2id.go:102-253 | whatever row is stored, a password is accepted only if Argon2id, on the row's own salt and costs, gives the row's own key |
| Argon2id.LegacyText | internal/auth/argon2id.go:164-201 | the algo column of an older row, written out |
| Argon2id.ReadUndoesCost | internal/auth/argon2id.go:216-234 | the m, t, p list reads back, the parallelism cut to eight bits |
| Argon2id.ReadUndoesLegacy | internal/auth/argon2id.go:164-201 | an algo column reads back exactly when its numbers fit 32 bits and none of them reads as zero after the cut |
| Argon2id.LegacyAcceptance | internal/auth/argon2id.go:147-162 | an older row is accepted exactly when it is salt followed by key; the 32-bit sum of the sizes makes the slice panic exactly when it wraps onto the row's length |
| Argon2id.WrappedSizesPanic | internal/auth/argon2id.go:147-162 | for every stored row there are sizes in the algo column that make the check panic |
| Argon2id.ReadUndoesField | internal/auth/argon2id.go:217-225 | key=value is cut at the first equals sign and its number read back, too large ones refused |
| Argon2id.HasPrefix | internal/auth/argon2id.go:257-267 | the byte loop decides prefix |
| Argon2id.ParseLegacyAlgo | internal/auth/argon2id.go:164-201 | the loop over fields computes the specification's reading |
| Argon2id.ParseCost | internal/auth/argon2id.go:214-234 | the loop over fields computes the costs; unknown keys pass |
| Argon2id.ParsePhc | internal/auth/argon2id.go:205-242 | splits, checks the version and decodes, rejecting anything else |
| Argon2id.Hasher.Hash | internal/auth/argon2id.go:59-82 | writes the record, which this hasher then accepts without rehash |
| Argon2id.Hasher.Verify | internal/auth/argon2id.go:102-115 | dispatches on the two formats; an unknown format is refused, and panics only if Argon2id does on the hasher's own parameters |
| Argon2id.Hasher.VerifyDummy | internal/auth/argon2id.go:121-143 | computes the throwaway hash once; on usable parameters it always returns |
| Argon2id.Hasher.VerifyLegacy | internal/auth/argon2id.go:147-162 | the older rows' check, panics included |
| Argon2id.Hasher.VerifyPHC | internal/auth/argon2id.go:205-253 | the records' check and the drift test |
| Base64.DecodeUndoesEncode | internal/auth/argon2id.go:72-80 | unpadded base64 (sections 3.2 and 4 of RFC 4648) decodes to the bytes encoded |
| Base64.EncodeIsInjective | internal/auth/argon2id.go:78-79 | different bytes encode differently |
| Base64.AlphabetIsInOrder | internal/auth/argon2id.go:78-79 | the order of table 1 of RFC 4648: capitals, small letters, digits, plus and slash |
| Base64.EncodeIsTheNumber | internal/auth/argon2id.go:78-79 | every three bytes as one number are the four characters' values as one number, a shorter rest filled up with zero bits |
| Base64.Encode | internal/auth/argon2id.go:78-79 | only alphabet characters, in the unpadded length |
| Base64.Alphabet | internal/auth/argon2id.go:78-79 | the alphabet and its inverse |
| Text.ParseUndoesItoa | internal/auth/argon2id.go:222-225 | 32-bit parsing undoes printing up to the limit and refuses every larger number |
| Text.SplitUndoesJoin | internal/auth/argon2id.go:207-210 | splitting at a separator gives back parts that do not hold it |
| Text.JoinUndoesSplit | internal/auth/argon2id.go:207-210 | joining the parts gives the text back, and no part holds the separator |
| Text.IndexOf | internal/auth/argon2id.go:217-221 | the first occurrence, or -1 |
| Refresher.NoRowStarves | internal/auth/oauthrefresh/refresher.go:132-212 | with healthy ticks and no row moving ahead, an eligible row with k rows ahead, s < BatchSize of them of removed providers, is attempted within (k - s)*ReauthAfter/(BatchSize - s) + 1 ticks |
| Refresher.BlockedRowStarves | internal/auth/oauthrefresh/refresher.go:162-168 | with BatchSize or more rows of removed providers strictly ahead, a row is in no batch of any run, whatever happens to the other rows |
| Refresher.AWaitWithoutEnd | internal/auth/oauthrefresh/refresher.go:132-168 | such runs, of any length, with a batch size of one, from any table of two such rows |
| Refresher.BlockersFillTheBatch | internal/data/gen/credentials.sql.go:314-329 | such rows come first in every batch and fill it |
| Refresher.WaitingUsesTries | internal/auth/oauthrefresh/refresher.go:132-212 | every tick that does not attempt the row uses up BatchSize - s of the tries of the rows ahead of it |
| Refresher.AttemptsUseTries | internal/auth/oauthrefresh/refresher.go:162-212 | an attempt on a row ahead takes one of its tries or moves it out of the way, unless its provider is removed |
| Refresher.FullBatch | internal/data/gen/credentials.sql.go:314-329 | a tick that leaves an eligible row out has a full batch, all of it ahead of that row and at most s of it skipped |
| Refresher.RunKeepsInv | internal/auth/oauthrefresh/refresher.go:187-193 | in every run a row not needing re-authorisation has failed fewer than ReauthAfter times |
| Refresher.RefreshTokenIsKept | internal/data/gen/credentials.sql.go:564-573 | until a row is deleted its refresh token is only ever replaced by a new sealed one, in every run |
| Refresher.SoftFailuresGiveUp | internal/auth/oauthrefresh/refresher.go:187-201 | soft failures in a row flip needs_reauth exactly at the ReauthAfter-th |
| Refresher.AttemptDoes | internal/auth/oauthrefresh/refresher.go:162-245 | one attempt on a row: only the four error codes, or a 4xx status without code, or the ReauthAfter-th failure in a row flag it; a grant replaces every token field, keeps an unrotated refresh token, defaults the type to Bearer and the expiry to an hour, and clears flag and count |
| Refresher.FlaggedRowsWait | internal/data/gen/credentials.sql.go:314-329 | a flagged row is never attempted again, in any run, until its user links anew |
| Refresher.BatchIsDue | internal/data/gen/credentials.sql.go:314-329 | a tick attempts only unflagged rows with a refresh token that expire within the lead time, and passes one over only for a full batch of rows that expire no later |
| Refresher.OrderDoesNotMatter | internal/auth/oauthrefresh/refresher.go:143-158 | whatever order the workers take the rows in, the tick has the same effect |
| Refresher.WithDefaults | internal/auth/oauthrefresh/refresher.go:96-110 | every configuration becomes valid: what is not positive becomes ten minutes, fifty rows and five failures, and the rest stays |
| Refresher.SplitScopes | internal/auth/oauthrefresh/refresher.go:338-353 | the loop yields exactly the non-empty parts of the string between spaces |
| Refresher.Refresher.Tick | internal/auth/oauthrefresh/refresher.go:132-160 | handles each row of the batch once, from the row the query read |
| Refresher.Refresher.RefreshOne | internal/auth/oauthrefresh/refresher.go:162-212 | skips unconfigured providers, fails hard or soft, or stores the new tokens, as AttemptDoes states |
| Refresher.Refresher.PersistRefreshed | internal/auth/oauthrefresh/refresher.go:214-245 | stores the tokens with an hour's expiry when none is given, keeping an unrotated refresh token |
| Refresher.Refresher.MarkTokenRefreshFailed | internal/data/gen/credentials.sql.go:480-486 | counts the failure and sets the flag |
| DeviceCode.OneLiveFlow | internal/auth/devicecode/devicecode.go:160-215 | at any point of any run two live flows of one user and provider are the same, and the user's key names it |
| DeviceCode.RequestsAreSpaced | internal/auth/devicecode/devicecode.go:223-275 | in every run, after a pending or slow_down answer the flow's next request comes at least the interval in force later: what it began with plus five seconds per slow_down (section 3.5 of RFC 8628) |
| DeviceCode.SlowDownAddsFiveSeconds | internal/auth/devicecode/devicecode.go:249-272 | a poll answered slow_down adds five seconds to the stored flow's wait exactly when its interval was positive, as the default hides any other, and shortens it exactly between -4 and -1 |
| DeviceCode.SlowDownCanSpeedUp | internal/auth/devicecode/devicecode.go:249-272 | such a run: an interval of -2 and a slow_down, and the next request three seconds later instead of five |
| DeviceCode.TerminalIsFinal | internal/auth/devicecode/devicecode.go:223-305 | after a final result every later poll of that flow is Expired |
| DeviceCode.PollReportsTheAnswer | internal/auth/devicecode/devicecode.go:223-305 | the poll of a live flow that is due is Approved exactly for a linked credential, Duplicate exactly for one linked elsewhere, Denied exactly for access_denied and unknown codes, Expired exactly for expired_token, Error exactly for a failure, Pending and SlowDown exactly for those answers; the flow and the user's key go exactly for the first four |
| DeviceCode.PollWithoutAsking | internal/auth/devicecode/devicecode.go:223-257 | every other poll: a missing, late or unconfigured flow is Expired, one polled too early is Pending for exactly the time left, and nothing is asked |
| DeviceCode.AnswerDecidesTheFlow | internal/auth/devicecode/devicecode.go:223-305 | over runs: after a poll that asked, the flow lives on exactly when the answer decided nothing, and once decided every later poll is Expired |
| DeviceCode.BeginKeepsTheAnswer | internal/auth/devicecode/devicecode.go:176-215 | an admitted and answered Begin stores the provider's code, its interval or five seconds, and its deadline, under flow and user key alike |
| DeviceCode.SupersededIsFinal | internal/auth/devicecode/devicecode.go:169-174 | a second Begin ends the flow it replaces for good, even if the provider then fails |
| DeviceCode.AdvisedDelayIsExact | internal/auth/devicecode/devicecode.go:249-272 | the delay a result advises is the one the next poll is held to, exactly when a slow_down leaves a positive interval |
| DeviceCode.OverlapLeavesTwoFlows | internal/auth/devicecode/devicecode.go:223-272 | after any run, a poll of a live flow with any further steps while it waits: two live flows of that user and provider are left exactly when the answer asks to wait, the deadline has not passed and those steps left another flow in its place |
| DeviceCode.AnswerLeavesTwoFlows | internal/auth/devicecode/devicecode.go:261-304 | the same for any database whose keys name their flows |
| DeviceCode.TwoFlowsAppear | internal/auth/devicecode/devicecode.go:160-272 | such runs: a Begin while a poll waits |
| DeviceCode.StepKeepsInv | internal/auth/devicecode/devicecode.go:157-305 | every Begin, Poll and wait keeps the invariant behind these |
| DeviceCode.RunKeepsInv | internal/auth/devicecode/devicecode.go:157-305 | so does every run |
| DeviceCode.GoneForGood | internal/auth/devicecode/devicecode.go:223-305 | a flow that is gone stays gone in every run |
| DeviceCode.Service.Start | internal/auth/devicecode/devicecode.go:160-215 | the steps of Begin in order: configured, rate, drop the old flow, ask, store the answer as given |
| DeviceCode.Service.PollFlow | internal/auth/devicecode/devicecode.go:223-275 | missing, unconfigured, expired, too early, or ask the provider and report its answer as PollReportsTheAnswer states |
| DeviceCode.Service.Answer | internal/auth/devicecode/devicecode.go:261-304 | the result each answer is reported as, and which answers end the flow |
| DeviceCode.Service.EnforceBeginRate | internal/auth/devicecode/devicecode.go:455-469 | counts the start in the user's minute and admits six |
| DeviceCode.SixStartsPerMinute | internal/auth/devicecode/devicecode.go:455-469 | of the starts in the minute opened by the first, exactly the first six are admitted |
| DeviceCode.Service.PersistFlow | internal/auth/devicecode/devicecode.go:475-483 | stores the flow until its deadline or removes it when that has passed |
| DeviceCode.Service.CleanupFlow | internal/auth/devicecode/devicecode.go:471-473 | removes the flow and the user's key |
| Palette.NearestIndex | cmd/ansiconvert/main.go:277-307 | the loop finds the first entry that no other is closer than |
| Palette.Nearest | cmd/ansiconvert/main.go:277-307 | that entry exists for every colour and non-empty palette |
| Palette.Quantised | cmd/ansiconvert/main.go:155-163 | a colour of the palette is kept, any other becomes a palette colour |
| Palette.NearestIsNoFarther | cmd/ansiconvert/main.go:277-307 | no entry is closer by the squared differences of red, green and blue, and every earlier one is farther |
| Palette.SixteenColours | cmd/ansiconvert/main.go:311-345 | the sixteen colours bit by bit, dark yellow being brown, and the six levels of the cube |
| Palette.XtermLandmarks | cmd/ansiconvert/main.go:332-350 | corners of the cube and ends of the grey ramp are where the xterm numbering has them |
| Palette.BuildPalette256 | cmd/ansiconvert/main.go:332-350 | the filled table is the sixteen colours, the 6x6x6 cube and the grey ramp |
| Palette.FillCube | cmd/ansiconvert/main.go:336-345 | the three nested loops fill entries 16 to 231 in the order of the digits in base 6 |
| Palette.DistanceIsBounded | cmd/ansiconvert/main.go:277-307 | the loop's start distance exceeds every real one |
| Dither.FloydSteinberg | cmd/ansiconvert/main.go:147-182 | every pixel ends as the nearest palette colour, opaque, of what it held in its turn: the original plus sixteenths (1, 5, 3, 7) of what its four neighbours missed, a description that DiffusionIsUnique shows to fix the picture |
| Dither.DiffusionIsUnique | cmd/ansiconvert/main.go:147-182 | there is exactly one assignment of held and settled pixels in which every pixel holds the original plus its neighbours' shares and settles to the nearest colour |
| Dither.TurnsDiffuse | cmd/ansiconvert/main.go:147-192 | the definition the loop is proved against is that assignment |
| Dither.PlusGivesShare | cmd/ansiconvert/main.go:184-202 | a share of weight k moves each channel by the quotient of k times the error by 16 cut off towards zero, as far as 0 and 255 allow, and leaves the alpha |
| Dither.ShareIsUnique | cmd/ansiconvert/main.go:184-202 | that description fixes the pixel |
| Dither.PushedIsShared | cmd/ansiconvert/main.go:172-178 | the neighbour to the right gets 7 sixteenths of what was missed, those below 3, 5 and 1, every other pixel nothing |
| Dither.CollectedNext | cmd/ansiconvert/main.go:175-178 | settling one pixel gives each later neighbour its share, in the order the receiving end counts them |
| Dither.OneMoreSettled | cmd/ansiconvert/main.go:152-180 | one iteration changes every pixel of the picture as the pushes say and no earlier one |
| Dither.TurnHasCome | cmd/ansiconvert/main.go:152-180 | when a pixel's turn comes it holds the original plus all its shares |
| Dither.DitherPixel | cmd/ansiconvert/main.go:154-178 | one iteration in place: the pixel settles to its nearest colour and every other pixel gets its 7, 3, 5, 1 or no sixteenths of the error |
| Dither.Diffuse | cmd/ansiconvert/main.go:184-202 | one share inside the picture, cut off towards zero and clipped, as PlusGivesShare states; outside it nothing |
| Dither.PalettePicturesStay | cmd/ansiconvert/main.go:147-182 | a picture of opaque palette colours is not changed |
| Dither.Premultiplied | cmd/ansiconvert/main.go:154-155 | an opaque component is read as it is, any other as component times alpha scaled down, with its exact rounding |
| Terminal.FeedSgr | cmd/ansiconvert/main.go:223-229 | a terminal reading an SGR sequence paints with exactly the numbers it was written from |
| Terminal.FeedGlyph | cmd/ansiconvert/main.go:232-232 | a three-byte glyph becomes one cell in the current colours |
| Terminal.SgrNumbers | cmd/ansiconvert/main.go:240-256 | the extended numbers: 38 and 48 followed by 5 and an entry, or by 2 and red, green and blue |
| Terminal.PaintOneNumber | cmd/ansiconvert/main.go:258-271 | the single numbers: 30 to 37 and 90 to 97, 40 to 47 and 100 to 107, and 0 |
| Terminal.JoinedIsInjective | cmd/ansiconvert/main.go:222-230 | different parameters are different texts, so comparing texts compares colours |
| AnsiConvert.ConversionIsExact | cmd/ansiconvert/main.go:63-75 | a picture dithered for its palette and emitted shows, in every cell of a terminal, exactly its two dithered pixels |
| AnsiConvert.EmittedPictureIsShown | cmd/ansiconvert/main.go:207-238 | for every picture and depth the emitted bytes, with unchanged colours left out, show each cell's nearest palette colours and leave the terminal as it was |
| AnsiConvert.ImageDecodes | cmd/ansiconvert/main.go:207-238 | the same for any colour texts that set their own colour only |
| AnsiConvert.RowDecodes | cmd/ansiconvert/main.go:216-233 | a row's text writes the row's cells whatever colours were in force |
| AnsiConvert.TransitionPaints | cmd/ansiconvert/main.go:222-229 | whatever a transition leaves out is in force already |
| AnsiConvert.RunsAreBare | cmd/ansiconvert/main.go:203-233 | while both colours stay, a cell costs the three bytes of the half block and nothing more |
| AnsiConvert.TransitionText | cmd/ansiconvert/main.go:221-229 | writes exactly the colours that change, and nothing when none does |
| AnsiConvert.LineAt | cmd/ansiconvert/main.go:212-218 | cell (x, y) holds pixels (x, 2y) and (x, 2y + 1); an odd last row is dropped |
| AnsiConvert.CodePaints | cmd/ansiconvert/main.go:240-271 | each colour's parameters set that colour and nothing else |
| AnsiConvert.TextIsCode | cmd/ansiconvert/main.go:240-271 | the text of a colour is its parameters joined by semicolons |
| AnsiConvert.ShowsNearest | cmd/ansiconvert/main.go:275-307 | what the terminal shows for a pixel is its nearest palette colour |
| AnsiConvert.PalettePictureIsExact | cmd/ansiconvert/main.go:147-238 | a picture of palette colours is shown exactly |
| AnsiConvert.Emit | cmd/ansiconvert/main.go:207-238 | writes exactly the picture's text and flushes it |
| AnsiConvert.EmitRow | cmd/ansiconvert/main.go:216-233 | one line of cells with the last colours carried along |
| AnsiConvert.SgrColor | cmd/ansiconvert/main.go:240-256 | the text of one colour at one depth |
| AnsiConvert.Convert | cmd/ansiconvert/main.go:63-75 | dither or not, then emit |
| AnsiConvert.BufWriter.WriteString | cmd/ansiconvert/main.go:362-372 | what was given to the writer plus what is buffered is everything written, however large the strings |
| AnsiConvert.BufWriter.Flush | cmd/ansiconvert/main.go:373-378 | afterwards the writer has been given everything |
| HalfBlock.RenderToAnsiLines | internal/imaging/halfblock.go:27-61 | one line per two pixel rows, nothing for an empty picture |
| HalfBlock.RenderLine | internal/imaging/halfblock.go:38-58 | the loop writes the row's text and a reset |
| HalfBlock.LineShowsPixels | internal/imaging/halfblock.go:27-61 | a line fed to a fresh terminal shows every pixel's own colour and leaves no colour behind |
| ChordFilter.Bridge | internal/carbonyl/ptybridge_linux.go:79-149 | over any sequence of reads the exit and the bytes sent are those of the reference definition; an emergency exit has sent exactly what came before the first 0x1c, a chord exit what came before an ESC q and at most its ESC, any other exit everything; the sent bytes are a prefix of the typed ones without 0x1c; and for prompt reads without 0x1c the exit is the chord's exactly when ESC q was typed, with everything before it sent |
| ChordFilter.CopyKeys | internal/carbonyl/ptybridge_linux.go:79-149 | the loop over the reads answers as the reference definition on the stream of keys |
| ChordFilter.ReferenceKeeps | internal/carbonyl/ptybridge_linux.go:79-149 | what the reference definition keeps of prompt reads, on the bytes as they were read |
| ChordFilter.ReferenceExplains | internal/carbonyl/ptybridge_linux.go:79-149 | what each exit of the reference definition says of the bytes typed, without times or chunks |
| ChordFilter.SentIsACleanPrefix | internal/carbonyl/ptybridge_linux.go:79-149 | the bytes sent are a prefix of the bytes typed and hold no 0x1c |
| ChordFilter.ChordExitIsEscQ | internal/carbonyl/ptybridge_linux.go:92-127 | without 0x1c and with reads at most 500 ms apart, the chord exit is taken exactly when ESC q was typed, and what was sent is the text before the first one plus at most that ESC |
| ChordFilter.ChunksDoNotMatter | internal/carbonyl/ptybridge_linux.go:79-149 | two chunkings of the same timed bytes take the same exit and send the same bytes up to that one ESC |
| ChordFilter.HandleRead | internal/carbonyl/ptybridge_linux.go:81-138 | one read keeps the loop's state as specified or ends it with the specified exit |
| ChordFilter.ChordStands | internal/carbonyl/ptybridge_linux.go:92-100 | later reads cannot change a chord exit |
| ChordFilter.EmergencyStands | internal/carbonyl/ptybridge_linux.go:103-116 | nor an emergency exit |
| ChordFilter.IndexByte | internal/carbonyl/ptybridge_linux.go:103-103 | the first 0x1c of a read, or -1 |
| ChordFilter.IndexEscQ | internal/carbonyl/ptybridge_linux.go:120-120 | the first ESC q of a read, or -1 |
| RateLimit.FailureKeepsLocks | internal/auth/ratelimit_redis.go:187-248 | with a long enough memory of lockouts, recording a failure never moves a lock's expiry earlier, and keeps counters below their thresholds |
| RateLimit.LocksStandExactlyWithLongMemory | internal/auth/ratelimit_redis.go:187-269 | for every handle or address and every threshold: no run of failures and logins from an empty Redis ever lets a failure shorten or lift its lock, if and only if the lockcount outlasts the longest lock less the base lock |
| RateLimit.ShortMemoryForgets | internal/auth/ratelimit_redis.go:187-269 | such a run for every shorter memory: enough failures for the longest lock, then enough for one more when the lockcount expires |
| RateLimit.Round | internal/auth/ratelimit_redis.go:194-245 | as many failures at one time as the threshold asks for write the lock and the lockcount and start the count again |
| RateLimit.RunKeepsInv | internal/auth/ratelimit_redis.go:187-297 | with long memory every ordered run keeps the invariant |
| RateLimit.CountKeepsInv | internal/auth/ratelimit_redis.go:194-245 | counting for one handle or address keeps the invariant and every lock |
| RateLimit.ClearKeepsInv | internal/auth/ratelimit_redis.go:289-297 | so does a successful login |
| RateLimit.LoginForgives | internal/auth/ratelimit_redis.go:289-297 | a login removes the handle's lock and failure counter and no other entry: addresses and lockcounts stay |
| RateLimit.LoginStartsOver | internal/auth/ratelimit_redis.go:187-297 | after a login, failures of the handle spaced inside the window lock it exactly when their number reaches the handle threshold, whatever other handles and addresses do |
| RateLimit.StaysOpen | internal/auth/ratelimit_redis.go:187-297 | fewer failures than the threshold since a login never lock the handle, however they are spaced |
| RateLimit.TimeKeepsInv | internal/auth/ratelimit_redis.go:187-248 | so does time |
| RateLimit.LockForGrows | internal/auth/ratelimit_redis.go:253-262 | later lockouts are never shorter and none exceeds the cap |
| RateLimit.LockoutSchedule | internal/auth/ratelimit_redis.go:187-262 | for failures of one address spaced inside both windows, whatever else happens, the m-th one locks exactly when the threshold divides m, for the duration of the (m/threshold)-th lockout |
| RateLimit.LockoutDuration | internal/auth/ratelimit_redis.go:253-262 | durations double up to the cap and stay there |
| RateLimit.RunIsOnSchedule | internal/auth/ratelimit_redis.go:187-248 | counters and locks after any run are those the times say |
| RateLimit.RedisRateLimiter.RecordFailure | internal/auth/ratelimit_redis.go:187-248 | handle and address counted under the effective parameters |
| RateLimit.RedisRateLimiter.CountOne | internal/auth/ratelimit_redis.go:194-245 | one counter, its lock and its backoff |
| RateLimit.RedisRateLimiter.IsLocked | internal/auth/ratelimit_redis.go:127-142 | locked exactly when a lock is live; the handle's lock answers first; the remaining time is right to half a second |
| RateLimit.RedisRateLimiter.LockTtl | internal/auth/ratelimit_redis.go:152-173 | live lock and its time left in whole seconds |
| RateLimit.RedisRateLimiter.IncrementAndExpire | internal/auth/ratelimit_redis.go:273-282 | increments and renews the expiry |
| RateLimit.RedisRateLimiter.Clear | internal/auth/ratelimit_redis.go:289-297 | removes the handle's counter and lock and no other entry |
| Mosaic.ViewportTiles | internal/providers/maptile/mosaic.go:51-76 | for every integer origin, size and zoom: each tile shows the right part of the world, tiles do not overlap, every viewport pixel on the grid is covered by exactly one, for positive sizes every tile meets the viewport, and for no width there is none exactly on a tile border |
| Mosaic.FloorDivFloors | internal/providers/maptile/mosaic.go:80-86 | the division floors for negative numbers too |
| Mosaic.WrapIsResidue | internal/providers/maptile/mosaic.go:66-66 | the wrapped column is the residue modulo 2^z |
| Mosaic.TileShowsTheWorld | internal/providers/maptile/mosaic.go:62-72 | a tile's indexes are in range and its pixels are the world's |
| Mosaic.ListedCovers | internal/providers/maptile/mosaic.go:58-74 | every pixel on the grid is covered |
| Mosaic.ListedDoesNotOverlap | internal/providers/maptile/mosaic.go:58-74 | no two tiles overlap |
| Mosaic.ListedMeetsTheViewport | internal/providers/maptile/mosaic.go:58-74 | every tile meets the viewport |
| Mosaic.Row | internal/providers/maptile/mosaic.go:62-73 | one row of tiles is appended in order |
| Mosaic.EmptyViewport | internal/providers/maptile/mosaic.go:55-60 | a viewport of no width with a row on the grid gets no tile exactly when its origin lies on a tile border |
| Locations.MirrorFollowsEveryRun | internal/realtime/locations.go:88-381 | after every run users.location is the label of the row least by (sort_order, id), NULL when there is none, and nobody has more than 12 rows |
| Locations.PrimaryIsMirrored | internal/realtime/locations.go:175-265 | SetPrimaryFromGeocode leaves the mirror right exactly when there is a 32-bit number below the first sort order, the first row is the near one, or the call is refused: an invalid place, or a new one over the cap or under a label already taken |
| Locations.PrimaryFails | internal/realtime/locations.go:175-256 | exactly which calls are refused, and that they write nothing |
| Locations.AMirrorGoesWrong | internal/realtime/locations.go:212-256 | such a state: one row at the least sort order and a second place |
| Locations.AddAppends | internal/realtime/locations.go:88-152 | an added row is listed last and other users' lists stay |
| Locations.PrimaryIsFirst | internal/realtime/locations.go:175-265 | the promoted or new row is listed first and the others keep their order |
| Locations.PromoteMovesToFront | internal/realtime/locations.go:212-230 | promotion moves one row to the front |
| Locations.RenameInPlace | internal/realtime/locations.go:321-339 | a rename changes one label in place |
| Locations.ListingAfterDelete | internal/realtime/locations.go:308-315 | a deletion drops that row from its user's list only |
| Locations.DeleteRemovesTheRow | internal/realtime/locations.go:308-315 | after Delete a row is stored exactly when it was and is not that id of that user |
| Locations.DeleteCutsTheList | internal/realtime/locations.go:308-315 | the user's list loses exactly that entry, in place; without such an entry, and for every other user, it stays |
| Locations.ClearPrimaryDropsTheFirst | internal/realtime/locations.go:271-280 | a list that is not empty loses exactly its first entry, every other list stays |
| Locations.AddSavesThePlace | internal/realtime/locations.go:88-152 | which calls are refused and with which error, in the order of the checks; otherwise the one new row holds the trimmed label, the coordinates and the clipped canonical name as given, numbered after the last |
| Locations.PrimaryIsThePlace | internal/realtime/locations.go:175-265 | the same for a new primary; a near row is kept but for its place in the order, numbered before the first in 32 bits |
| Locations.NearIsWithin | internal/realtime/locations.go:204-210 | near means less than a ten-thousandth of a degree apart in latitude and in longitude |
| Locations.RenameRefuses | internal/realtime/locations.go:321-339 | which renames are refused and with which error |
| Locations.SeedsOnce | internal/realtime/locations.go:288-301 | seeding does nothing for a user with rows, and otherwise saves the profile's place exactly when it is valid, the user known and the label free |
| Locations.TrimTrims | internal/realtime/locations.go:88-96 | trimming cuts white space at both ends, all of it and nothing else |
| Locations.SwapTransposes | internal/realtime/locations.go:349-361 | a swap of two current rows exchanges their two places and nothing else |
| Locations.RunKeepsSorts | internal/realtime/locations.go:88-361 | sort orders stay distinct in every run whose swaps get current rows |
| Locations.RunKeepsNames | internal/realtime/locations.go:88-381 | no run gives a user two rows with one label |
| Locations.SwapKeepsInv | internal/realtime/locations.go:349-361 | mirror and cap survive a swap of any two rows, stale or foreign ones included |
| Locations.ListingLists | internal/data/gen/locations.sql.go:100-105 | the listing holds exactly the user's rows, in order |
| Locations.StepKeepsInv | internal/realtime/locations.go:88-381 | every operation keeps mirror and cap |
| Locations.WrappedStaysBehind | internal/realtime/locations.go:212-215 | a wrapped sort order leaves the old first row first |
| Locations.LocationService.AddLocation | internal/realtime/locations.go:88-152 | validation, cap, next number, insert, mirror; the saved row is the place given and the only new one |
| Locations.LocationService.SetPrimaryFromGeocode | internal/realtime/locations.go:175-265 | validation, match, then promote, insert or keep, and mirror |
| Locations.LocationService.MatchIndex | internal/realtime/locations.go:204-210 | the first row less than a ten-thousandth of a degree away on both axes |
| Locations.LocationService.PromoteRow | internal/realtime/locations.go:217-230 | moves the matched row before the first, in 32 bits |
| Locations.LocationService.AddPrimary | internal/realtime/locations.go:231-256 | inserts before the first row under the cap |
| Locations.LocationService.ClearPrimaryOf | internal/realtime/locations.go:271-280 | deletes the first row, so that the list is the old one without its head and other lists stay, or clears a stale mirror |
| Locations.LocationService.DeleteLocation | internal/realtime/locations.go:308-315 | exactly the user's row of that id is gone, and the mirror is refreshed |
| Locations.LocationService.RenameLocation | internal/realtime/locations.go:321-339 | renames unless the label is taken, and refreshes the mirror |
| Locations.LocationService.SwapLocations | internal/realtime/locations.go:349-361 | writes the two sort orders and refreshes the mirror |
| Locations.LocationService.RefreshMirrorOf | internal/realtime/locations.go:367-381 | copies the first row's label or NULL |
| Locations.LocationService.Seed | internal/realtime/locations.go:288-301 | adds only for a user without rows |
| Locations.LocationService.GetPrimary | internal/realtime/locations.go:70-80 | nothing exactly for a user without rows; otherwise the user's row least by (sort_order, id) |
| Locations.LocationService.AddUserSavedLocation | internal/data/gen/locations.sql.go:14-18 | inserts unless the user is unknown or the label taken |
| Wall.DeliveryIsOrderedAndNearlyComplete | internal/realtime/wall.go:133-175 | in every run what a subscriber received and has buffered is an in-order subsequence of the broadcasts since it subscribed, with at most three in a row missing, and registered channels are open |
| Wall.EvictionOnTheFourthMiss | internal/realtime/wall.go:133-152 | a subscriber is evicted, and its channel closed, exactly when its sixteen places are full and it missed the last three; with room it gets the message |
| Wall.UnregisteredIsFinal | internal/realtime/wall.go:133-175 | an unregistered channel is never sent to or closed again |
| Wall.KeepingUpMissesNothing | internal/realtime/wall.go:133-175 | a subscriber that always has room has received or buffered every broadcast since it subscribed, in order |
| Wall.CancelIsFinal | internal/realtime/wall.go:167-173 | after a cancellation nothing is sent to the channel and nobody closes it, in any run; other subscriptions stay |
| Wall.ReceiveTakesTheOldest | internal/realtime/wall.go:160-175 | a receive moves the oldest buffered message, if any, and touches nobody else |
| Wall.ApplyKeepsInv | internal/realtime/wall.go:133-175 | every step keeps the invariant |
| Wall.WallDispatcher.Broadcast | internal/realtime/wall.go:133-152 | one broadcast is offered to every subscriber |
| Wall.WallDispatcher.OfferAll | internal/realtime/wall.go:136-151 | in whatever order the map is walked, the effect is the same |
| Wall.WallDispatcher.TrySend | internal/realtime/wall.go:137-150 | sends, or counts the drop and evicts at four |
| Wall.WallDispatcher.Send | internal/realtime/wall.go:138-139 | only to an open channel with room |
| Wall.WallDispatcher.Close | internal/realtime/wall.go:147-147 | only once |
| Wall.WallDispatcher.Subscribe | internal/realtime/wall.go:160-166 | a new id with an empty channel |
| Wall.WallDispatcher.Cancel | internal/realtime/wall.go:167-173 | unregisters if still registered, without closing |
| Wall.WallDispatcher.Receive | internal/realtime/wall.go:160-175 | takes the oldest buffered message |

## Left out

- Network, SQL and SSH drivers, HTTP handlers, TUI screens, HTML, cookies, provider clients: plumbing around the models.
- Redis and SQL failures, logging and audit records: every statement is taken to succeed, except in the refresher, where success is an input.
- Machine integers: unbounded integers stand for Go's int, int32 and int64 except where a width is part of a claim (the 32-bit sizes of `Argon2id`, the 32-bit sort orders of `Locations`); card-game amounts are assumed to fit.
- Polyline: DrawCrosshair, which adds two lines.
- Cards: uniformity of the random draws.
- HandEval.TiebreakOf: orders hands by their five ranks only, as the code does, not by poker's kicker rules.
- Holdem: the bot's policy (its action is an input) and the getters.
- Holdem.ProgressUnlessStuck: says nothing of hands after a short all-in except that they can go round for ever, which `Holdem.ShortAllInNeverEnds` proves.
- Blackjack: payouts and the screen's masking of the hole card beyond the flag.
- Sessions: user agent truncation, address parsing, rows of the older string shape; session ids are fresh by assumption.
- Sessions.ClearAllEndsEverySession: clear-all is one step; overlapping a login of the same user is not modelled.
- Argon2id: Argon2id itself, equal timing, and a failing random source.
- DeviceCode: JSON, the HTTP requests, and the database transaction that stores the link, whose outcome is part of the provider's answer; flow and user key are written at one instant.
- DeviceCode.SixStartsPerMinute: bounds the starts in the fixed minute the code counts, not in every sliding minute.
- Refresher: HTTP, sealing (a function argument) and auditing; a reply without a scope would make the real insert fail on a NOT NULL column, which the model covers as a statement that did not succeed.
- Refresher.NoRowStarves: assumes successful statements, new expiries beyond the lead time and no row moving ahead; rows of removed providers whose expiry equals the row's own count against the bound, though the query may put them either way.
- RateLimit: persistent bans, lower-casing of handles and stripping of ports.
- ChordFilter: the other goroutines of the bridge, window changes and failing writes.
- Mosaic: the Web Mercator projection; origins are integers.
- Locations: NaN coordinates, white space outside ASCII, and a canonical name cut inside a multi-byte character; strings are byte strings.
- Locations.LocationService.Seed: two logins racing to seed are not modelled, as each operation is one step.
- Palette, Dither, AnsiConvert, HalfBlock: decoding, scaling and the command line; the writer's errors, which the code ignores too.
- Terminal: only what the emitted bytes use, and unknown sequences are skipped.
- Wall: the bus, JSON and the mutex; a broadcast is one step.
- Other packages (slots, roulette, video poker, wallet, identicon, pagination, settings, chat names): easy or finite members.
