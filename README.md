# Klondike solitaire engine, in Dafny

This project models the game engine of a browser Klondike solitaire
(`script.js`). It covers:

- **Cards and zones.** The card model with its flip and its colour rule. The zones are the draw pile (deck), the waste, one foundation per suit and seven tableau piles, each a sequence whose top is its last card.
- **Setup.** The deal of a new game.
- **Moves.** The deck click (draw, or recycle the waste), detaching a card from wherever it lies, and the moves to a foundation and to a tableau pile.
- **The drop handler.** The dispatch rule that sends a drag to one of the two moves.
- **Read-only queries.** Can-move, any-move-left and the hint candidates, and the win check.
- **Progression bookkeeping.** Points with the high score, and the daily missions: their catalog, their selection and their progress.
- **The saved game.** The record codec for snapshots and the 24-hour staleness rule.

## Modules

- **`Wrappers`** and **`Cards`**: the card datatype, `Flip`, the colour rule, the corner display text and the 52-card standard deck.
- **`Progression`**: the score (points and high score), missions, the catalog, calendar days and the staleness test.
- **`Zones`**: the `Game` value holding every zone, plus the searches `findCard` and `findStackFromCard`. It also has the bag of card identities, which is used to state that moves neither create nor lose cards.
- **`Rules`**: the placement rules and the read-only queries `canMoveToFoundation`, `canMoveToTableau`, `checkAvailableMoves` and the `getHint` candidates.
- **`Moves`**: every state change as a function from the game before to the game after, together with the lemmas that say what each change means.
- **`Shuffle`**: the Fisher–Yates shuffle, driven by the random picks it is given.
- **`Setup`**: the deal, a new game, and the daily missions.
- **`Codec`**: the snapshot records, saving and loading.
- **`Engine`**: the `Solitaire` class.
  - **Fields:** the zones, `points`, `highScore` and `missions`, plus the saved game, which stands in for the browser storage.
  - **Methods:** each one does its work in place, with the same loops and branches as the source. Each is proved to leave the object in exactly the state the matching function of `Moves`, `Setup` or `Codec` describes.

## Behaviour of the code worth noting

Some of what the code does differs from what its own comments and names suggest. The model follows the code:

- **Win check** (`script.js:450-458`). It tests only that every foundation holds 13 cards. It pays the win event and the 100-point bonus on every call that finds it so, not once (`Moves.WinBonusRepeats`). Foundations built only by legal moves do hold Ace to King in order (`Moves.WonGameIsComplete`).
- **Detaching a tableau card** (`script.js:334-346`). The comment at line 337 says the card and all cards on top of it are removed, but lines 338-340 put the cards above it back. Only that card leaves, so runs do not move as a unit.
  - A face-down card left on top is turned over and fires a reveal event (lines 341-344), but earns no points.
  - The 5-point reveal (lines 349-357, under the comment "If we reveal a card by removing one") runs only when the card is in neither the waste nor the tableau.
- **`findCard`** (`script.js:270-282`). It searches the whole waste, not only its top.
- **`checkAvailableMoves`** (`script.js:460-497`). It considers every face-up tableau card, not only pile tops. The hints (`script.js:537-552`) consider only pile tops.
- **The drop handler** (`script.js:225-244`). It looks up only the first dragged card. It sends a drag to a foundation only when the drag is a single card. The win check runs after every drop whose first card was found, even when nothing moved.
- **`tryMoveToTableau`** (`script.js:300-323`). It pushes the card onto the target pile as the removal left it.

## Model

Lemmas that only break a larger proof into steps have no row, because on their own they model nothing. These are `Moves.RemoveCardInWaste`, `Moves.RemoveCardInTableau`, `Moves.RemoveCardMissing`, `Setup.DealOneCard`, `Setup.DealRowEnd`, `Setup.DealOfCleared`, `Engine.AwardStep` and `Engine.FoundationMoveSteps`, plus the multiset helpers `Zones.AddToBoth`, `Zones.TakeOut`, `Zones.PutIn` and `Setup.MoveOne`.

| member | source | states |
|---|---|---|
| Cards.NewCard | script.js:2-7 | a new card has the given suit and value and is face down |
| Cards.Flip | script.js:65-68 | flipping keeps suit and value and toggles the orientation |
| Cards.FlipTwice | script.js:65-68 | flipping twice restores the card |
| Cards.IsAlternatingColor | script.js:360-365 | true exactly when the two cards have different colours (hearts/diamonds red, clubs/spades black); alternating cards never share a suit |
| Cards.DisplayValue | script.js:45-53 | the corner text is never empty; 1, 11, 12 and 13 show as A, J, Q and K, and 2..10 as the decimal value |
| Cards.NatToString | script.js:45-53 | decimal text is a non-empty string of digits with no leading zero |
| Cards.DigitChar | script.js:45-53 | a digit value gives a character between '0' and '9' |
| Cards.ParseNatToString | script.js:45-53 | decimal text reads back to the number it shows |
| Cards.DisplayValueRoundTrip | script.js:45-53 | the display text determines the value: reading it back gives the value for every integer |
| Cards.EverySuitListed | script.js:138 | the suit list used to create the deck names every suit |
| Cards.StandardDeck | script.js:137-144 | the created deck has 52 cards; position i holds suit i/13 of the list, value i%13+1, face down |
| Cards.StandardDeckComplete | script.js:137-144 | the created deck is face down, every value is in 1..13, no identity repeats, and every (suit, 1..13) occurs |
| Progression.AddPoints | script.js:113-129 | points rise by the amount; the high score is at least the new points, never falls, and is either the new points or unchanged |
| Progression.Advance | script.js:684-691 | an unfinished mission of the event's type gains exactly one progress, and only such a mission changes; others are unchanged; 0 ≤ progress ≤ target is kept; the event completes the mission exactly when progress newly reaches the target |
| Progression.AdvanceAll | script.js:682-698 | every mission is advanced in place, in order, and none is added or lost |
| Progression.AdvanceAllKeepsBounds | script.js:684-691 | an event keeps every mission within 0..target and leaves missions of other types unchanged |
| Progression.Award | script.js:684-691 | the `addPoints` of each completed mission's reward, in mission order; its contract states that the high score never falls and that points never fall when no reward is negative, and `Progression.AwardPaysCompletedRewards` states the exact amount |
| Progression.RewardSumAppend | script.js:684-691 | the reward sum over missions plus one more adds that mission's reward exactly when the event completes it |
| Progression.AwardPaysCompletedRewards | script.js:682-698 | an event raises the points by exactly the rewards of the missions it completes and never lowers the high score |
| Progression.RewardSumOtherTypes | script.js:685 | missions of other types pay nothing for an event |
| Progression.FinishedMissionStays | script.js:685 | a finished mission never changes again and never pays again, whatever events follow |
| Progression.RewardPaidOnce | script.js:684-691 | over any run of events a mission within bounds stays within bounds and pays at most once, exactly when it goes from unfinished to its target |
| Progression.Catalog | script.js:597-643 | the catalog has five templates, each unstarted with positive target and reward, and of five different types |
| Progression.IsSameDay | script.js:590-594 | two dates are the same day exactly when year, month and day agree |
| Progression.StalenessWindow | script.js:833-836 | a save at most a day old is not stale; once stale it stays stale as time goes on |
| Zones.Without | script.js:329 | splicing one position out keeps the order of the other elements |
| Zones.KeyBagConcat | script.js:340 | the identities of two zones put together are the sum of their identities |
| Zones.KeyBagWithout | script.js:329 | splicing a card out removes exactly its identity |
| Zones.FlipTop | script.js:341-343 | turning the top over keeps the cards below, flips the top and keeps the identities |
| Zones.TableauBagUpdate | script.js:338-340 | replacing one pile changes the tableau's identities by the difference between the two piles |
| Zones.FoundationBagPush | script.js:290 | a card pushed on a foundation adds exactly its identity |
| Zones.IndexFrom | script.js:335 | the first position from a start that holds the identity, or none exactly when no such position exists |
| Zones.IndexOf | script.js:327 | `indexOf`: the first position holding the identity, or none exactly when the zone does not hold it |
| Zones.FindInTableau | script.js:275-279 | the first pile, and in it the first position, holding the identity, or none exactly when no pile holds it |
| Zones.FindCard | script.js:270-282 | `findCard`: the first match in the whole waste, else the first match in the first pile that holds one; none exactly when neither waste nor tableau holds the identity |
| Zones.FindInTableauFirst | script.js:275-279 | the tableau search lands on the first pile and first position holding the identity |
| Zones.FindStackFromCard | script.js:251-268 | for a card in the tableau, the identities from its position to the top of its pile; for any other card, the card alone; the card always comes first |
| Rules.OnlyAceStartsFoundation | script.js:287 | an empty foundation accepts exactly an Ace |
| Rules.OnlyKingStartsPile | script.js:302-303 | an empty pile accepts exactly a King |
| Rules.CanMoveToFoundation | script.js:499-503 | true exactly when the card's own foundation is empty and the card is an Ace, or the card is one above its top |
| Rules.CanMoveToTableauFrom | script.js:506-519 | true exactly when a pile from the start on, other than the skipped one, accepts the card |
| Rules.CanMoveToTableau | script.js:505-520 | true exactly when a pile other than the skipped one accepts the card (-1 skips none) |
| Rules.AnyCardMoveInPile | script.js:474-480 | true exactly when some face-up card at or below the position can move to a foundation or another pile |
| Rules.AnyCardMoveFrom | script.js:470-482 | true exactly when some face-up card of a pile from the start on can move |
| Rules.AnyFaceDownTopFrom | script.js:485-489 | true exactly when a pile from the start on shows a face-down top |
| Rules.CheckAvailableMoves | script.js:460-497 | true exactly when the waste top can move, or a face-up tableau card can move, or a pile shows a face-down top, or the deck is not empty |
| Rules.WasteHints | script.js:525-535 | every waste hint names a move of the waste top that is legal |
| Rules.TableauHints | script.js:537-552 | every tableau hint is legal, and every legal move of a face-up pile top is among the hints |
| Rules.HintCandidates | script.js:522-562 | never empty; the moves listed are exactly the legal waste-top and face-up pile-top moves; with none, the single fallback: draw, else reset, else no moves |
| Rules.HintMovesAreAvailable | script.js:460-497 | a move the hints list is also found by `checkAvailableMoves` |
| Rules.StuckHint | script.js:567-572 | in a stuck game the hint is to reset the deck when the waste holds cards, otherwise to start a new game |
| Moves.AwardPoints | script.js:113-129 | only the score changes: points rise by the amount and the high score stays at least the points and never falls |
| Moves.MissionEvent | script.js:682-698 | only missions and score change; the missions advance and the points rise by the rewards of those completed |
| Moves.DrawOrRecycle | script.js:168-178 | a deck click changes only deck and waste and keeps the number of cards they hold together; `Moves.DrawMovesTopCard` and `Moves.RecycleReversesWaste` state each branch |
| Moves.DrawMovesTopCard | script.js:174-178 | a draw moves the deck's top card, turned over, onto the waste, and changes nothing else |
| Moves.RecycleReversesWaste | script.js:168-173 | a recycle empties the waste into the deck in reverse order, each card turned over |
| Moves.RecycleThenDraw | script.js:168-178 | after a recycle, the next draw brings back the first waste card exactly as it was |
| Moves.DrawKeepsOrientation | script.js:168-178 | a deck click keeps the deck face down and the waste face up |
| Moves.DrawConservesCards | script.js:168-178 | a draw or a recycle keeps every card identity of the game |
| Moves.DrawKeepsDeckWasteKeys | script.js:168-178 | a deck click keeps the identities held by deck and waste together |
| Moves.DeckWasteBag | script.js:168-178 | moving cards between deck and waste only keeps the game's identities |
| Moves.ReverseIsPermutation | script.js:169-173 | reversing is a permutation |
| Moves.FirstFaceDownTop | script.js:350-357 | the first pile showing a face-down top, or none exactly when no pile does |
| Moves.PileWithout | script.js:338-344 | a pile loses exactly the detached card; the cards below the top keep their order; a face-down top left behind is turned up |
| Moves.RemoveCard | script.js:325-358 | detaching never touches deck or foundations and keeps seven piles; `Moves.RemoveFromWaste`, `Moves.RemoveFromTableau` and `Moves.RemoveMissingCard` state its three cases |
| Moves.ScoreKeepsCards | script.js:343 | events and points never change the cards |
| Moves.RemoveFromWaste | script.js:327-331 | removing from the waste touches only the waste, and only the card with that identity |
| Moves.RemoveFromTableau | script.js:334-346 | removing from pile p touches only pile p; a reveal advances the reveal missions and pays only their rewards; without it score and missions stay |
| Moves.RemoveMissingCard | script.js:349-357 | with the card nowhere, the first face-down top is turned up, the reveal missions advance, and the points rise by 5 plus their rewards; with no face-down top nothing changes |
| Moves.ReplacePileBag | script.js:338-340 | replacing a pile changes the game's identities by the difference between the two piles |
| Moves.WasteRemovalConserves | script.js:329 | splicing a waste card removes exactly its identity from the game |
| Moves.PileRemovalConserves | script.js:338-344 | detaching a pile card removes exactly its identity from the game |
| Moves.RemoveCardConserves | script.js:325-346 | when the card is found, detaching it removes exactly its identity from the game |
| Moves.MoveToFoundation | script.js:284-298 | the move succeeds exactly when the suit matches and the foundation accepts the card; a refused move changes nothing; the game stays well formed |
| Moves.FoundationMoveEffect | script.js:284-298 | for any card, a successful move makes it the new top of its foundation and leaves the others; waste and tableau are as detaching left them, and the points are those after detaching plus 10 plus the rewards of the foundation-move event |
| Moves.FoundationMoveFromWaste | script.js:284-298 | from the waste, the card leaves the waste, the tableau is untouched, and the points rise by 10 plus the rewards of the event |
| Moves.FoundationMoveConserves | script.js:289-290 | a foundation move of a card the game holds keeps every card identity |
| Moves.FoundationMoveKeepsOrder | script.js:286-290 | foundations holding Ace, 2, ... of their suit in order stay so after any foundation move |
| Moves.MoveToTableau | script.js:300-323 | the move succeeds exactly when an empty pile gets a King, or a pile gets a card of the other colour one below its top; a refused move changes nothing; the game stays well formed |
| Moves.TableauMoveEffect | script.js:300-323 | for any card, a successful move pushes it on the target pile as detaching left it, making it the top; the points are those after detaching plus 5 and a king-move event (empty pile) or plus 2 and a tableau-move event |
| Moves.TableauMoveFromWaste | script.js:300-323 | a waste card lands on top of the target pile, for 5 points on an empty pile or 2 otherwise, plus the rewards of the event |
| Moves.TableauMoveFromPile | script.js:300-323 | a card moved from one pile to another leaves its pile (turning up a face-down top) and lands on top of the other; the points rise by any reveal rewards, then 5 or 2 plus the move event's rewards |
| Moves.TableauMoveConserves | script.js:300-323 | a tableau move of a card the game holds keeps every card identity |
| Moves.PileAppendBag | script.js:305 | a card pushed on a pile adds exactly its identity |
| Moves.AllFoundationsFullByName | script.js:451 | "every foundation holds 13" is the same as each of the four named foundations holding 13 |
| Moves.CheckWin | script.js:450-458 | fires exactly when all four foundations hold 13 cards (then they hold 52 cards), adds the win rewards and 100 points, and never touches a zone |
| Moves.WinBonusRepeats | script.js:450-458 | a second check of a won game fires again and pays the bonus again |
| Moves.WonGameIsComplete | script.js:450-458 | with foundations built by legal moves, a won game holds Ace to King of each suit in order |
| Moves.Place | script.js:232-241 | the dispatch of a drop: a single card onto a foundation is `Moves.MoveToFoundation`, any drag onto a pile is `Moves.MoveToTableau`, and a drop elsewhere or of several cards onto a foundation moves nothing; the game stays well formed |
| Moves.Drop | script.js:225-244 | an empty drag or an unknown first card changes nothing; once the first card is found, a single card onto a foundation gives the win check after `Moves.MoveToFoundation` of that card, any drag onto a pile gives the win check after `Moves.MoveToTableau`, and any other drop gives the win check alone |
| Moves.DropConserves | script.js:225-244 | a drop never creates or loses a card |
| Shuffle.ShuffleFrom | script.js:146-149 | the swap steps from position i down to 1, one per pick; its contract states only the length, and `Shuffle.ShuffleFromPermutes` states that it is a permutation |
| Shuffle.Shuffled | script.js:146-149 | the whole Fisher–Yates shuffle, as on the deck and in `shuffleArray` (script.js:649-655); its contract states only the length, and `Shuffle.ShuffledPermutes` states that it is a permutation |
| Shuffle.Swap | script.js:148 | exchanges two positions and keeps the rest |
| Shuffle.ShuffleFromPermutes | script.js:146-149 | every run of swap steps is a permutation |
| Shuffle.ShuffledPermutes | script.js:146-149 | the shuffle is a permutation of its input |
| Shuffle.ShuffleArray | script.js:649-655 | `shuffleArray` in place: the array ends as the shuffle of its old contents, a permutation of them |
| Setup.DealFrom | script.js:152-160 | the deal leaves seven piles and a deck short by exactly the cards still to deal; `Setup.DealFromDeck`, `Setup.DealFromPiles` and `Setup.DealFromKeys` state what it deals |
| Setup.DealSize | script.js:152-153 | the deal takes 28 cards |
| Setup.DealStep | script.js:153-158 | one deal step keeps the piles as the deal builds them: counts per pile, only each pile's own-row card face up |
| Setup.RowEnd | script.js:152-153 | the piles at the end of a row are the piles at the start of the next |
| Setup.DealFromDeck | script.js:154 | the deal pops from the top: what remains is the bottom of the deck |
| Setup.DealFromPiles | script.js:152-160 | from a face-down deck the deal leaves pile q with q+1 cards, only its top face up |
| Setup.DealFromKeys | script.js:152-160 | the deal moves identities from the deck to the piles and loses or adds none |
| Setup.DealKeysStep | script.js:154-155 | one deal step keeps the identities of deck plus piles |
| Setup.DeckStepKeys | script.js:154 | popping the deck removes exactly the top identity |
| Setup.PileStepKeys | script.js:155 | pushing on a pile adds exactly that identity |
| Setup.Deal | script.js:136-161 | create, shuffle and deal keep waste, foundations, score and missions, leave seven piles, and leave the deck 24 cards longer (52 cards added, 28 dealt) |
| Setup.DealAddsNewCards | script.js:136-161 | the deal adds exactly the 52 new cards to the game's identities |
| Setup.EmptyFoundations | script.js:870-875 | four foundations, all empty |
| Setup.Cleared | script.js:868-877 | a cleared game is well formed |
| Setup.ShuffledFaceDown | script.js:137-149 | the shuffled new cards are all face down |
| Setup.NewDeal | script.js:864-880 | a new game leaves 24 face-down cards in the deck, an empty waste and foundations, pile q with q+1 cards and only its top face up, every one of the 52 cards exactly once, 0 points, and high score and missions kept |
| Setup.TableauBagEmpty | script.js:876 | empty piles hold no identity |
| Setup.ShuffleFromKeys | script.js:146-149 | shuffling cards and then taking identities is shuffling the identities |
| Setup.ShuffledKeyBag | script.js:146-149 | the shuffle keeps every card identity |
| Setup.ShuffleFromKeepsDistinct | script.js:649-655 | shuffling missions of different types keeps their types different |
| Setup.DailyMissions | script.js:646 | the daily missions are three catalog missions of three different types, unstarted and within bounds |
| Setup.FirstThreeOfShuffle | script.js:646 | the first three of a shuffled catalog are members of it, of different types, unstarted |
| Codec.SerializeCards | script.js:817-823 | one record per card, in order, with its suit, value and orientation |
| Codec.Rebuild | script.js:855-860 | a card rebuilt from a record has its suit, value and orientation |
| Codec.DeserializeCards | script.js:854-862 | one rebuilt card per record, in order |
| Codec.CardsRoundTrip | script.js:854-862 | reading back written cards gives the same cards, orientation included |
| Codec.RecordsRoundTrip | script.js:817-823 | writing out read cards gives the same records |
| Codec.Capture | script.js:799-815 | every zone of the snapshot (deck, waste, each foundation, each pile) reads back as the zone it was written from; points and saving time are recorded |
| Codec.PilesRoundTrip | script.js:809 | every written pile reads back unchanged |
| Codec.PileRecordsRoundTrip | script.js:847 | every read pile writes back as its records |
| Codec.Restore | script.js:838-848 | every restored zone writes back out as the records it was read from, every suit has a foundation, the points are the saved ones, and high score and missions are kept |
| Codec.SaveThenRestore | script.js:799-848 | restoring a snapshot of a game into any game gives back the zones and points of the saved game and keeps the receiver's high score and missions |
| Codec.RestoreWellFormed | script.js:838-848 | a restored snapshot of seven piles is a well-formed game |
| Codec.Load | script.js:825-851 | nothing saved, or a save more than a day old, loads nothing and leaves the game; otherwise the save is restored |
| Codec.SaveThenLoad | script.js:799-851 | a save loaded within a day into any game succeeds and gives back the saved zones and points with the receiver's high score and missions; into the saved game itself, it gives that game back |
| Engine.RecycleStep | script.js:169-173 | one recycle step puts the waste's top, turned over, on the deck being rebuilt |
| Engine.StandardDeckAt | script.js:139-143 | the card created for suit s and value v sits at position 13s+v-1 of the new cards |
| Engine.Solitaire.constructor | script.js:72-111 | high score from storage (0 when absent), the day's missions, then the saved game if it loads, else a new deal; a stale save is discarded |
| Engine.Solitaire.AddPoints | script.js:113-129 | the object's score becomes that of `Moves.AwardPoints` |
| Engine.Solitaire.UpdateMissionProgress | script.js:682-698 | the loop over missions leaves the object as `Moves.MissionEvent` says |
| Engine.Solitaire.VisitMission | script.js:684-691 | one mission advanced in place, and its reward added when it completes |
| Engine.Solitaire.ClickDeck | script.js:168-178 | the draw, or the recycle loop over the waste, leaves the object as `Moves.DrawOrRecycle` says |
| Engine.Solitaire.RemoveCardFromCurrent | script.js:325-358 | the three searches leave the object as `Moves.RemoveCard` says |
| Engine.Solitaire.DetachFromPile | script.js:338-345 | the splice, the push back and the reveal detach exactly the one card |
| Engine.Solitaire.RevealFirstFaceDown | script.js:350-357 | the scan turns up the first face-down top, for 5 points and a reveal event |
| Engine.Solitaire.TryMoveToFoundation | script.js:284-298 | the result and the new state are those of `Moves.MoveToFoundation` |
| Engine.Solitaire.TryMoveToTableau | script.js:300-323 | the result and the new state are those of `Moves.MoveToTableau` |
| Engine.Solitaire.CheckWinCondition | script.js:450-458 | the result and the new state are those of `Moves.CheckWin` |
| Engine.Solitaire.Drop | script.js:225-244 | the new state is that of `Moves.Drop` |
| Engine.Solitaire.InitializeGame | script.js:136-161 | create, shuffle and deal leave the object as `Setup.Deal` says |
| Engine.Solitaire.CreateCards | script.js:137-144 | the 52 new cards pushed onto the deck in the standard order |
| Engine.Solitaire.CreateSuit | script.js:139-143 | the thirteen cards of one suit pushed Ace to King |
| Engine.Solitaire.ShuffleDeck | script.js:146-149 | the deck shuffled in place, as `Shuffle.Shuffled` says |
| Engine.Solitaire.DealTableau | script.js:152-160 | the deal loops leave deck and piles as `Setup.DealFrom` says |
| Engine.Solitaire.DealRow | script.js:153-159 | one row of the deal, as `Setup.DealFrom` says |
| Engine.Solitaire.DealCard | script.js:154-158 | one card popped onto a pile, face up on the row's own pile |
| Engine.Solitaire.GenerateNewMissions | script.js:596-647 | the missions become the first three of the shuffled catalog |
| Engine.Solitaire.InitializeMissions | script.js:574-588 | missions stored today are kept, otherwise new ones are drawn |
| Engine.Solitaire.SaveGameState | script.js:799-815 | the saved game becomes the snapshot of the game, which is unchanged |
| Engine.Solitaire.LoadGameState | script.js:825-851 | the result and the new state are those of `Codec.Load`; a stale save is removed |
| Engine.Solitaire.NewGame | script.js:864-880 | the save is dropped, zones and points cleared, and a new deal made, as `Setup.NewDeal` describes |

## Left out

- **Rendering.** Everything that builds, styles or updates page elements is not modelled, since it has no game logic. That covers the card elements, `renderGame`, the progress bar and its percentage, `renderMissions`, the panels, the points animation, the win message and the stuck-state `alert`.
- **Drag events.** The dragstart/dragover/dragleave/dragend listeners and the JSON payload of a drag are not modelled. A drop is given as the dragged identities plus a target (a foundation's suit, a pile index or elsewhere). A pile index outside 0..6 is not modelled. The `try`/`catch` around the drop is not modelled, because nothing in the model can throw.
- **Browser storage.**
  - The stored high score, missions and mission date are constructor parameters. A stored high score that is missing or unreadable counts as 0.
  - The saved game is the `savedGame` field.
  - `saveMissions` and the storing of the high score are not modelled, because they only write storage.
- **Time.** Clocks and timers are not modelled: the auto-save every 30 seconds, the save on page close, and the midnight mission refresh with its countdown. Dates are (year, month, day) values and times are integer milliseconds, passed in.
- **Randomness.** `Math.random` in the deck shuffle, in `shuffleArray` and in the hint pick is not modelled. The shuffles take their random indexes as the `picks` parameter. The hint is modelled as its list of candidates, without the random choice and without the hint text.
- **`moveHistory`.** It is never read and is not modelled.
- **Card identity.** Cards are values. The engine finds them by suit and value (`Key`), not by object identity. This matches the source whenever the card passed in comes from `findCard`, as in the drop handler. Aliasing between card objects is not modelled.
- **`Card.flip`.** It is a function from card to card. Where the source flips a card object in place, the model replaces that card in its zone.
- **The global `newGame`.** The global function that rebuilds the engine is plumbing around the constructor and is not modelled. `Engine.Solitaire.NewGame` is the class method.
- **Split loop bodies.** The following engine methods are the loop bodies and branches of the source operations they sit under, split out so that each part carries its own proof: `CreateCards`, `CreateSuit`, `ShuffleDeck`, `DealTableau`, `DealRow`, `DealCard`, `VisitMission`, `DetachFromPile`, `RevealFirstFaceDown`.
- Moves.FoundationMoveConserves, Moves.TableauMoveConserves, Moves.RemoveCardConserves: assume the card is in the waste or the tableau. For a card the game does not hold, the source pushes a copy onto the target and the game gains a card. The drop handler never does this, because it only moves a card `findCard` returned.
- Engine.Solitaire.constructor, Engine.Solitaire.LoadGameState, Codec.RestoreWellFormed: a saved game that is not stale is required to have seven piles, because the source does not check the stored pile count. A stale save may have any shape, since it is discarded without being read.
- Shuffle.ShuffleFrom, Shuffle.Shuffled: their own contracts state only the length. That the shuffle is a permutation is stated by `Shuffle.ShuffleFromPermutes` and `Shuffle.ShuffledPermutes`.
- Progression.Award: its own contract states only that the high score never falls and that the points do not fall without negative rewards. The exact amount paid is stated by `Progression.AwardPaysCompletedRewards`.
