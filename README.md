# Cards War in Dafny

A model of `cards_war.py`: the card game "War" for 2 or more players, as
played by the class `cardsWar`.

A `Card` has a rank (`number`) and a suit (`color`). Cards are compared by
rank only. Rank 0 is the "no card" sentinel `NoCard`: a player who holds
nothing plays it, and it never wins a table.

A `Player` holds two things:
- a FIFO `hand` to play from;
- a `wonCards` pile, which is shuffled back into the hand when the hand runs out.

The engine builds a 52-card deck (ranks 1 to 13, four suits) and shuffles
it. It deals the same number of consecutive cards to every player and
records round 0 on the scoreboard. Then it plays rounds until somebody
holds 52 cards.

In a round, every player plays one card. The players showing the highest
real rank are the winners:
- One winner takes the real played cards and the real cards of the field
  onto their won pile, and a scoreboard row is appended.
- Several winners go to war. The table and one face-down card from each
  tied player go onto the field. The tied players then play a round among
  themselves, which advances the round counter again.
- No winner happens when everybody put down the sentinel. The source then
  asks for the first entry of an empty list and stops with an error; the
  model reports that as a failed round (`resolved == false`), and the game
  loop returns `Crashed`.

The project has five modules:
- `Cards` (cards.dfy): the card, its comparison, the real-card filter and
  the standard deck.
- `Players` (player.dfy): the `Player` class, plus `Holding`, a player's
  hand and won pile as a value. A single play is specified as `PlayStep`
  on holdings.
- `Holdings` (holdings.dfy): what all the players hold, as values: the
  count and the multiset of cards held.
- `Dealing` (dealing.dfy): the constructor's player-count check and how
  the deck is cut into shares.
- `Rounds` (rounds.dfy): one round, with its wars, as a value of the
  datatype `Round`. It has one layer per table played. `RoundOf` states
  what a round does, and the lemmas about it state what every round
  guarantees.
- `Game` (game.dfy): the class `CardsWar`, which follows the methods of
  `cardsWar` one by one and proves each against the specification values
  above.

`isEmptyHand` is the guard `Players.Player.IsEmptyHand`, which `PlayCard`
uses. It has no contract of its own.

The source gives several operations default arguments. In the model each
one is called with its argument written out, as the source's own callers
do:
- `playRound`'s `field=[]`: `PlayFullRound` passes `[]`.
- the constructor's `playersCount=2`.

## Model

| member | source | states |
|---|---|---|
| Cards.RankOnlyOrder | cards_war.py:21-25 | Card comparison ignores the suit: repainting either card keeps "greater" and "equal", and exactly one of greater, equal and smaller holds |
| Cards.RealCards | cards_war.py:207-208 | The filtered cards are exactly the cards of the input whose rank is not 0, and there are no more of them than input cards |
| Cards.RealCardsAppend | cards_war.py:207-208 | Filtering the played cards and then the field gives the same result as filtering them together, in the same order |
| Cards.StandardDeck | cards_war.py:130-135 | The deck has 52 cards, all of rank 1 to 13, and every (rank, suit) pair over the four suits is in it |
| Cards.StandardDeckDistinct | cards_war.py:131-135 | No card occurs twice in the deck |
| Players.ScoreCountsCards | cards_war.py:49-57 | A score is the number of cards held in hand and won pile together; it is 0 exactly when the player holds no card |
| Players.PlayStepAccounts | cards_war.py:76-87 | A play takes exactly one card from a player who holds one and none from one who holds nothing; the card is real exactly when the player held something; the player keeps holding deck cards; the cards held before are those held after plus the played card if it is real |
| Players.RefillValid | cards_war.py:63-64 | Playing the front of a reordered won pile of deck cards plays a deck card and leaves deck cards in the hand |
| Players.Player.constructor | cards_war.py:41-44 | A new player has the given name, an empty hand and an empty won pile |
| Players.Player.Score | cards_war.py:49-57 | The score is the score of the player's holding: hand plus won pile |
| Players.Player.RefillHand | cards_war.py:59-65 | The won pile ends empty and the new hand is a permutation of the old won pile; from an empty hand the score is unchanged |
| Players.Player.PlayCard | cards_war.py:76-87 | The call is one `PlayStep`. With score 0: the sentinel and no change. With a non-empty hand: its front card, the rest of the hand stays, the won pile is untouched. With an empty hand: the won pile moves into the hand in some order and the front of it is played. The score drops by one whenever it was positive |
| Holdings.TotalIsHeld | cards_war.py:190-194 | The number of cards the players hold (the "Total" column) is the size of the multiset of cards they hold |
| Holdings.TotalBounds | cards_war.py:240-244 | No player's score exceeds the total held, so a score of 52 needs 52 cards held |
| Holdings.TotalUpdate | cards_war.py:207-208 | Changing one player's holding changes the total by exactly that player's score difference |
| Holdings.HeldAllUpdate | cards_war.py:207-208 | Changing one player's holding changes the multiset held by exactly what that player gave up and took |
| Dealing.DealtFits | cards_war.py:144-146 | With `52 / n` cards each, the shares fit in the deck and fewer than `n` cards stay undealt |
| Dealing.DealtCount | cards_war.py:112 | Of the player counts the check accepts, only 2 and 4 deal the whole deck, and only 56 deals no card at all |
| Dealing.IntendedDealsAll | cards_war.py:110 | Under the documented check (the count divides 52), every player gets at least one card and all 52 are dealt; the counts are 2, 4, 13, 26 and 52 |
| Dealing.DealtGrows | cards_war.py:145-146 | Player `i`'s share follows right after the shares of the players before it |
| Dealing.DealingHeld | cards_war.py:139-147 | After dealing, the players hold what they held before plus exactly the first `n * (52 / n)` cards of the deck; the total grows by that number; everybody still holds deck cards only |
| Dealing.ShuffledDeck | cards_war.py:136-137 | A permutation of the standard deck has 52 cards, all of them deck cards |
| Rounds.MaxRank | cards_war.py:172-178 | The result is at least every rank on the table and at least 0, and it is the rank of some card when it is positive |
| Rounds.WinnersAreTopPlayers | cards_war.py:161-181 | A player is among the winners if and only if their card is real and no card on the table is higher; winners come from the players, each at most once; there are no winners exactly when no card of positive rank was played |
| Rounds.WinnersOfTable | cards_war.py:171-181 | On a table of deck cards and sentinels, there are no winners exactly when the table has no real card |
| Rounds.WinnersAt | cards_war.py:177-180 | Finding the winners among the player objects picks the players at the winning positions |
| Rounds.PlaysValid | cards_war.py:149-159 | After a table is played, everybody still holds deck cards only and the table holds deck cards and sentinels |
| Rounds.PlaysHeld | cards_war.py:149-159 | The real cards of a played table are exactly what its players lost, as a multiset |
| Rounds.PlaysCount | cards_war.py:149-159 | The players hold as many cards fewer as the table has real cards |
| Rounds.PlaysReal | cards_war.py:149-159 | A played table has no real card exactly when none of its players held a card |
| Rounds.AwardHeld | cards_war.py:198-209 | An award adds exactly the gained cards to what the players hold, and awarding deck cards keeps everybody holding deck cards |
| Rounds.SettledRound | cards_war.py:221-226 | A table with a single top card makes a round that ends with that player collecting the table and the field |
| Rounds.FailedRound | cards_war.py:221-225 | A table with no winner makes a round that ends with nobody collecting and the field unchanged |
| Rounds.WarRound | cards_war.py:222-231 | A tie, the tied players' face-down cards and the round they play next on the enlarged field together make one round |
| Rounds.RoundValid | cards_war.py:211-231 | A round keeps everybody holding deck cards only and the field holding deck cards and sentinels |
| Rounds.RoundHeld | cards_war.py:211-231 | No card is created or lost. After a collecting round the players hold what they held plus the field's real cards. After a failed round the players' cards plus the real cards left on the field are those they held plus the field's real cards |
| Rounds.RoundCount | cards_war.py:211-231 | The same conservation, counted in cards |
| Rounds.RoundField | cards_war.py:229-231 | The field only grows during a round; a war appends its table and face-down cards to it |
| Rounds.RoundOutside | cards_war.py:211-231 | Players who do not take part in a round end it holding exactly what they held |
| Rounds.RoundEnd | cards_war.py:221-226 | A round ends with someone collecting if and only if its last table holds a real card. The collector is the single winner of the last table and a player of the round. They add that table's real cards and the whole field's real cards to their won pile; everybody else keeps what they held after that table |
| Rounds.RoundLayers | cards_war.py:219-231 | Every war takes at least one card from the players, so a round has at most one more table than the cards held, and each table advances the round counter once |
| Rounds.NothingHeldFails | cards_war.py:221-225 | If none of a round's players holds a card, the round fails at once, with nobody collecting and the field unchanged |
| Rounds.EmptyFieldRound | cards_war.py:250-251 | A round on an empty field, as the game loop plays it: when someone collects, the players hold exactly as many cards as before; when nobody holds a card, nobody collects |
| Rounds.ExhaustedWarFails | cards_war.py:229-231 | If the tied players of a war hold no card after the tie, the next table has no winner, and the round fails with the real cards of the tie left on the field |
| Rounds.TieWithEmptyHands | cards_war.py:229-231 | Such a war happens: two players holding one card each of equal rank both win the table, then play sentinels face down and on the next table, which has no winner |
| Game.Scores | cards_war.py:192 | One score per player, in player order, each the number of cards that player holds |
| Game.ScoresTotal | cards_war.py:193 | The sum of the scores is the number of cards the players hold |
| Game.RowOf | cards_war.py:190-194 | A scoreboard row has the round number, each player's score in player order, and a "Total" equal to the sum of the scores |
| Game.RecordedTotals | cards_war.py:190-195 | Appending a row for players who hold `dealt` cards keeps every row's total at `dealt` and leaves the first row first |
| Game.CardsWar.constructor | cards_war.py:102-121 | Past the check: players "Player 1" to "Player n", each new and holding nothing, round 0, an empty scoreboard and no latest results |
| Game.CardsWar.New | cards_war.py:112 | There is no game exactly when the count is below 2 or does not divide 56; otherwise the game is the constructor's |
| Game.CardsWar.CreateShuffleDeck | cards_war.py:123-137 | The deck is a permutation of the 52-card standard deck |
| Game.CardsWar.DistributeCards | cards_war.py:139-147 | Player `i` gets the `i`-th run of `52 / n` cards of a shuffled deck at the back of their hand; the players gain exactly the first `n * (52 / n)` cards of that deck, and the total grows by that number |
| Game.CardsWar.DealCards | cards_war.py:144-146 | The dealing loop appends each player's share to their hand and changes nothing else |
| Game.CardsWar.GetPlayedCards | cards_war.py:149-159 | Each player of the round plays once, in order, and nobody else changes; the table holds deck cards and sentinels; the players hold as many cards fewer as there are real cards on the table |
| Game.CardsWar.PlayInTurn | cards_war.py:159 | The players play in list order, one `PlayStep` each |
| Game.CardsWar.FindWinningPlayers | cards_war.py:161-181 | The scan returns `Winners` of the table, which `Rounds.WinnersAreTopPlayers` characterizes |
| Game.CardsWar.UpdateScoreboard | cards_war.py:183-196 | One row is appended, holding the current round, every score and their sum; it is also the latest result; the players are unchanged |
| Game.CardsWar.AwardCards | cards_war.py:198-209 | The winner's won pile gains the real played cards, then the real field cards; their hand and every other player are unchanged |
| Game.CardsWar.PlayRound | cards_war.py:211-227 | The round goes as `RoundOf` describes, so the lemmas on `RoundOf` apply to it. The counter grows by one per table played. A collecting round appends its row; a failed one leaves the scoreboard as it was |
| Game.CardsWar.ResolveTable | cards_war.py:221-227 | After the table is down: a tie goes to war, a single winner collects, no winner fails; the result is described by `RoundOf` from before the table was played |
| Game.CardsWar.AwardRound | cards_war.py:225-226 | The single winner's won pile gains the real table and field cards, the round is settled in one layer, and one row is appended |
| Game.CardsWar.BreakDraw | cards_war.py:229-231 | The tied players each play one face-down card; the table and those cards join the field; the tied players' round finishes the round, as `RoundOf` describes |
| Game.CardsWar.IsWinner | cards_war.py:233-244 | True exactly when some player's score is at least 52 |
| Game.CardsWar.StartGame | cards_war.py:247-249 | Dealing to players who hold no card leaves them holding `n * (52 / n)` cards, and round 0's row records that |
| Game.CardsWar.PlayFullRound | cards_war.py:251 | A round of all the players on an empty field keeps the dealt count when it resolves and appends its row; players holding no card cannot resolve it |
| Game.CardsWar.CheckWinner | cards_war.py:250 | `Won` exactly when some player holds 52 cards, which needs at least 52 cards held |
| Game.CardsWar.NextRound | cards_war.py:250-252 | A failed round stops the game (`Crashed`) with the scoreboard unchanged, and it always fails when no card was dealt. Otherwise the dealt count is kept, a row is appended, and the outcome is `Won` exactly when some player holds 52 cards |
| Game.CardsWar.PlayRounds | cards_war.py:250-252 | The loop keeps the dealt count while no round fails, keeps round 0's row first and every row totalling the dealt count; `Won` means some player holds 52 cards, `OutOfRounds` means nobody does, and with fewer than 52 cards dealt the game is never won |
| Game.CardsWar.PlayGame | cards_war.py:246-253 | The deck is a permutation of the standard one. Every scoreboard row totals the dealt count, and round 0's row comes first. Unless a round failed, the players hold the dealt cards. No game with fewer than 52 cards dealt is ever won. Under the documented player-count check all 52 cards stay in play |

## Left out

- Printing (`print` of the winner and of each round's results) and `write_csv` of the scoreboard are I/O. The start time from `datetime` only names that file. None of them is modelled.
- The scoreboard is a sequence of `Row` values: the round, the scores in player order, and the total. It is not a polars DataFrame. The player names are its column keys in the source; in the model the order of the scores takes their place.
- The `pl.Int16` schema (cards_war.py:115-119) is not modelled. Round numbers and scores are unbounded here, so a round counter above 32767 is not reported as a failure. What polars does with such a value is not part of this model.
- The deque's `maxlen=56` (cards_war.py:43, 64) is not modelled: hands are unbounded sequences. Only 52 cards exist, so no hand can exceed 56 and the bound never drops a card.
- `random.shuffle` in `CreateShuffleDeck` and `refill_hand` is modelled as an arbitrary permutation (a `:|` choice). Every property proved holds for every order; the distribution of orders is not modelled.
- Game.CardsWar.PlayGame: the `while not isWinner()` loop is bounded by a parameter `maxRounds` and ends with `OutOfRounds` when that bound runs out, because the source's loop need not terminate. A run of the source is a run of the model with a large enough bound.
- Game.CardsWar.PlayGame: the `IndexError` the source raises at cards_war.py:225 when a table has no winner is modelled as the outcome `Crashed`. Rounds played before it are kept.
- Game.CardsWar.constructor: it requires a valid player count. The failing assertion of cards_war.py:112 is modelled by `Game.CardsWar.New`, which returns no game for the counts the assertion rejects.
- Game.CardsWar.PlayRound and Game.CardsWar.BreakDraw: the source extends the caller's `field` list in place. The model passes the field as a value and returns the final field as `fieldAfter`; no caller in the source reads the list afterwards.
- `ResolveTable`, `AwardRound`, `PlayInTurn`, `DealCards`, `StartGame`, `PlayRounds`, `PlayFullRound`, `NextRound` and `CheckWinner` split the bodies of `playRound`, `get_played_cards`, `distributeCards` and `playGame` into steps. They are not operations of their own in the source.
- `__repr__` of cards and players only formats text for printing and is not modelled.

## Findings

| source | as written | input that shows it | evidently intended | confidence | as-written member | corrected member |
|---|---|---|---|---|---|---|
| cards_war.py:110-112 | The constructor accepts a player count of at least 2 that divides 56, while its documentation and the 52-card deck call for a divisor of 52. | 7 players are accepted and get 7 cards each, so 49 cards are dealt and nobody can ever reach 52. With 56 players each gets 0 cards, every player plays the sentinel, and the first round has no winner (the `IndexError` at cards_war.py:225). | Accept only counts of at least 2 that divide 52: 2, 4, 13, 26 and 52. Every player then gets at least one card and all 52 are in play. | not executed | Dealing.DealtCount | Dealing.IntendedDealsAll |

`Dealing.DealtCount` shows the problem in the check as written:
- Of the accepted counts 2, 4, 7, 8, 14, 28 and 56, only 2 and 4 deal the whole deck.
- Only 56 deals nothing.

The consequences follow from the game's contracts:
- `Game.CardsWar.PlayGame` never reports a win when fewer than 52 cards are dealt.
- `Game.CardsWar.NextRound` reports `Crashed` when no card was dealt.

`Dealing.IntendedDealsAll` proves the intended check (`Dealing.IntendedPlayerCount`) deals every card. `Game.CardsWar.PlayGame` uses it to prove that under that check all 52 cards stay in play. The constructor itself keeps the check as written, since that is what the program does.
