# A verified model of the card-guessing game server

This models the game server of `server/main.js`, a Node.js WebSocket server for a two-player card-guessing game.

Players connect and are kept in a registry. They join under a name and are paired with another player who is waiting. Once both are ready, they are dealt ten cards each from a 24-card deck (values 1 to 12, in black and white). They then take turns guessing the values of the opponent's hidden cards. A right guess turns the guessed card over. A wrong guess makes the guesser turn over one of their own cards. A player whose cards are all shown has lost.

Value 1 is the special card. A dealt hand keeps its other cards sorted, and each special card is placed at a random point. After the deal a countdown from 15 runs once a second. Its first call is made at once, so the 15th call, which closes the reorder window and draws the first turn, comes 14 seconds after the deal. The window is advisory: the server accepts an `on_reorder` hand at any time from any player that is not uninitialised, and does not check that only special cards moved.

The project has five modules:

- `Cards` (`cards.dfy`): cards, their face text, the sort order, revealing a card, and the "all cards shown" test.
- `Deal` (`deal.dfy`):
  - the deck;
  - the in-place Fisher–Yates shuffle over an `array`;
  - sorting a hand and splicing its special cards in;
  - dealing the two hands.
- `Messages` (`messages.dfy`): the messages the server sends, and views of the message log for each player.
  - Every `sendMsg` appends a (recipient, message) pair to one log.
  - `Inbox` projects the messages sent to one player.
  - `LastTurn` is the last `switch_turn` value a player was sent. The server keeps no turn holder, so this is the only record of whose turn it is.
- `Reorder` (`reorder.dfy`): the fifteen-step countdown of the reorder window.
- `Game` (`game.dfy`): the `Player`, `Countdown` and `Server` classes.
  - `Server` holds the registry and the log.
  - Its methods are the server's handlers.
  - `Dispatch` is the message switch, including the gate that drops everything except `join` from an uninitialised player.

`Server.Valid()` is the invariant every handler keeps:

- the registry's ids are unique;
- no player is its own opponent.

A handler's preconditions say where the source would throw instead, for example on an index outside a hand.

Randomness is passed in as parameters:

- Each value of `Math.random()` is a real in [0, 1).
- The shuffle picks `floor(r * n)`.
- A special card goes in at `round(r * n)`.
- The first turn goes to the dealing player when `r > 0.5`.

## Model

| member | source | states |
|---|---|---|
| Cards.Display | server/main.js:56-69 | a face text exists exactly for the values 1..12, and the text "A" belongs exactly to the special value 1 |
| Cards.DisplayInjective | server/main.js:56-69 | different values have different face texts |
| Cards.Compare | server/main.js:364-368 | the dealer's comparator only ever answers -1 or 0 |
| Cards.CompareMeansBefore | server/main.js:364-368 | on cards that differ in value or colour, the comparator says -1 exactly when the first card comes before the second in the intended order (by value, white before black at equal value), so it never says -1 both ways round |
| Cards.LeTotal | server/main.js:364-368 | any two cards are comparable in the hand order |
| Cards.LeAntisymmetric | server/main.js:364-368 | two cards that each come before the other have the same value and colour |
| Cards.Reveal | server/main.js:576-577 | turning a card over sets that card's `show` to 1, keeps its value and colour, and leaves every other card and the hand's length unchanged |
| Cards.RevealMonotone | server/main.js:536-537 | turning a card over never hides another card, and a hand whose `show` values are all 0 or 1 stays that way |
| Cards.SumShowBound | server/main.js:489-491 | on a hand whose `show` values are all 0 or 1, the sum of the `show` values is at most the hand's length, and equals it exactly when every card has `show` 1 |
| Cards.AllUnfoldedMeansAllShown | server/main.js:489-491 | on such a hand, the "all cards unfolded" test holds exactly when every card is shown |
| Cards.ForgedShowFoolsUnfolded | server/main.js:152-153 | a hand that a client sent back during the reorder window can pass the test with a card still hidden, because `show` values 2 and 0 add up to the length of a two-card hand |
| Deal.RandomIndex | server/main.js:388 | `floor(r * n)` for `r` in [0, 1) is an index below `n` |
| Deal.RandomInsertPoint | server/main.js:371 | `round(r * n)` for `r` in [0, 1) is an insertion point in 0..n |
| Deal.Deck | server/main.js:316-332 | the unshuffled deck has 24 cards |
| Deal.DeckContents | server/main.js:316-332 | the deck holds exactly the hidden cards whose value has a face text (1..12), in both colours, each once |
| Deal.SwapPermutes | server/main.js:392-394 | swapping two positions rearranges the cards without changing the multiset |
| Deal.ShufflePermutes | server/main.js:380-398 | the specification of the shuffle keeps the length and the multiset of the cards |
| Deal.Shuffle | server/main.js:380-398 | the in-place swap loop leaves the array equal to the shuffle specification applied to its old contents, and is therefore a permutation of them |
| Deal.InsertByRank | server/main.js:364-368 | inserting a card into an ordered sequence keeps it ordered and adds exactly that card |
| Deal.SortByRank | server/main.js:364-368 | the sort of the normal cards is ordered and is a permutation of its input |
| Deal.SpliceSpecial | server/main.js:371 | splicing a special card in at any point leaves the sequence of normal cards unchanged |
| Deal.SpecialsAtMost | server/main.js:362 | a hand has no more special cards than cards, so a draw per card is enough for the splice |
| Deal.SplicedKeeps | server/main.js:370-372 | splicing the special cards in, one draw each, keeps the normal cards in their order and adds exactly the special cards |
| Deal.SpliceSpecials | server/main.js:370-372 | the splice loop returns the spliced hand for the given draws: special card `i` goes in at `round(rs[i] * n)` of the hand built so far; its normal cards are the sorted ones in their order, and it holds exactly the sorted cards plus the special cards |
| Deal.SortedHandSound | server/main.js:361-375 | the sorted hand keeps the length and the multiset of its input; its normal cards are the input's normal cards sorted by value, white before black |
| Deal.SortHand | server/main.js:361-375 | the method returns the sort of the normal cards with the special cards spliced in at the given draws |
| Deal.PermutationDistinct | server/main.js:316-335 | a rearrangement of a sequence without repeated cards has none |
| Deal.DealSlices | server/main.js:334-335 | from any shuffled deck, the slices [0, 10) and [10, 20) share no card, both come from the deck, and 4 cards are left over |
| Deal.DealtHandsSound | server/main.js:316-335 | the two hands have ten cards each, hold the cards of deck slices [0, 10) and [10, 20) of the shuffled deck, have their normal cards ordered, share no card, and together are drawn from the deck |
| Deal.DealHands | server/main.js:316-335 | the method shuffles the deck in place and sorts the two slices, returning exactly the hands `DealtHands` describes for the same draws |
| Deal.DealtCardsHidden | server/main.js:316-331 | every dealt card is hidden and has a value in 1..12 |
| Messages.InboxAppend | server/main.js:233-235 | the messages a player receives from two runs of sends are the messages from the first run followed by those from the second |
| Messages.TurnsAppend | server/main.js:502-509 | the same holds for the `switch_turn` values a player is sent |
| Messages.KeepsTurn | server/main.js:497-509 | sends that tell a player nothing about the turn leave that player's view of the turn unchanged |
| Messages.TakesLastTurn | server/main.js:497-509 | after sends that tell a player the turn exactly once, that is the player's view of the turn |
| Messages.CardsUpdateShowsOwnHand | server/main.js:585-602 | each player of the pair is sent its own hand, and the other's hand exactly when the display flag is set, otherwise an empty one |
| Messages.SwitchTurnTellsBoth | server/main.js:497-525 | a turn switch tells `p` the turn once, tells its opponent the opposite once, and tells nobody else anything about the turn |
| Messages.GuessKeepsTurn | server/main.js:536-568 | neither outcome of a guess mentions the turn. A right guess gives the guesser the new hands, the "correct" hint and `show_skip true`. A wrong guess gives the guesser the "wrong" hint, `punish` and `show_skip false`, in that order |
| Messages.GameoverOutcome | server/main.js:454-487 | for a mutually paired pair: a player whose hand is all shown is told it lost and the other that it won, and both are told the game is over. If neither hand is all shown, nothing is sent. If both are, each player is told both results |
| Messages.DealHidesOpponentHand | server/main.js:337-348 | the deal sends each player exactly, in order: its own hand with the opponent's hidden, `select_card -1`, `allow_reorder true` and the first countdown hint. It says nothing about the turn |
| Messages.ResultKeepsTurn | server/main.js:454-487 | the result and `gameover` messages say nothing about the turn |
| Messages.PlayersListMsgs | server/main.js:250-255 | the broadcast holds one `players_list` message for each listed player, in registry order |
| Messages.BroadcastReachesAll | server/main.js:245-257 | every registered player receives the count and nobody else receives anything |
| Reorder.RunFrom | server/main.js:409-446 | counting down from `s` seconds, the k-th call announces `s - k`, and the interval is cleared after exactly `s` calls and stays cleared |
| Reorder.FiresOnlyAtFifteenth | server/main.js:409-446 | from 15 seconds, the countdown ends on its 15th call and no other, and no call comes after that |
| Game.FindById | server/main.js:236-238 | `Players.find` by id returns the first entry with that id, or "none" when no entry has it |
| Game.FindByIdMember | server/main.js:236-238 | with unique ids, looking up a registered player's id finds that player |
| Game.FirstMatching | server/main.js:272 | the matchmaking search returns the first entry in state `matching` whose id is not the caller's, or "none" |
| Game.RemoveById | server/main.js:205-207 | the filter keeps exactly the entries whose id differs |
| Game.RemoveKeepsUnique | server/main.js:205-207 | the filter keeps ids unique |
| Game.RemoveOne | server/main.js:205-207 | removing a registered id removes exactly one entry; removing an unknown id changes nothing |
| Game.RemoveKeepsOrder | server/main.js:205-207 | with unique ids, removing a registered id takes out exactly the entry at the index the lookup finds and keeps the others in registry order |
| Game.GameoverKeepsTurn | server/main.js:454-492 | the game-over check sends nothing about the turn |
| Game.Player.constructor | server/main.js:217-224 | a new player has no name, no opponent and no cards, and is uninitialised |
| Game.Countdown.constructor | server/main.js:409-413 | a countdown captures the two players and starts at 15 seconds, running |
| Game.Server.Post | server/main.js:233-235 | sending appends the messages to the log |
| Game.Server.BroadcastPlayersList | server/main.js:245-257 | the loop sends each registered player the registry size |
| Game.Server.Connect | server/main.js:75-100 | a connection registers a new uninitialised player at the end of the registry, sends it its id, then broadcasts the new size; the invariant is kept |
| Game.Server.Close | server/main.js:199-209 | closing tells the opponent, if any, that the player resigned, removes exactly that player from the registry, keeping the others in order, and broadcasts the new size. It changes no player's fields, so the opponent keeps its reference and the countdown is not stopped |
| Game.Server.SetOpponent | server/main.js:236-238 | the opponent becomes the registry entry with the given id, or none |
| Game.Server.MatchPlayer | server/main.js:262-289 | see the details after this table |
| Game.Server.PairWith | server/main.js:275-288 | both players become `matched`, each is the other's opponent, each is sent `new_game` with the other's name, and the invariant is kept |
| Game.Server.UpdateCards | server/main.js:585-602 | with an opponent, the pair is sent their hands as `CardsUpdateShowsOwnHand` describes; without one, nothing is sent |
| Game.Server.SwitchTurn | server/main.js:497-525 | with an opponent, afterwards `p`'s view of the turn is `turn` and the opponent's is `!turn`, and every other player's view is unchanged |
| Game.Server.CheckGuess | server/main.js:530-569 | a right guess shows exactly the guessed card of the opponent's hand and sends the right-guess messages. A wrong guess changes no card and sends the wrong-guess messages. No player's view of the turn changes. Without an opponent nothing happens |
| Game.Server.Punish | server/main.js:574-580 | revealing an already shown card changes nothing and sends nothing. Otherwise exactly that card is shown, both hands are displayed to both players, and the turn passes: the player is told `false` and the opponent `true` |
| Game.Server.CheckGameover | server/main.js:454-492 | without an opponent nothing is sent. Otherwise the player's hand is checked and then the opponent's, and each check that fires sends the result and `gameover` to both. For a mutual pair this is the outcome `GameoverOutcome` describes. No player's view of the turn changes |
| Game.Server.Resign | server/main.js:291-304 | the player becomes uninitialised with no opponent. The opponent, if any, is told, loses its reference back and keeps its state. The countdown intervals of both players are stopped. The invariant is kept |
| Game.Server.CountDown | server/main.js:427-447 | one countdown call sends both captured players the seconds left and steps the clock. On the call that reaches zero, and only then, it also closes the reorder window and displays both hands to both players |
| Game.Server.Tick | server/main.js:410-447 | a stopped interval does nothing. On the final call, the turn goes to the dealing player exactly when the draw exceeds 0.5, and its opponent is told the opposite |
| Game.Server.SpecialCardsReorder | server/main.js:404-426 | with an opponent, opens the reorder window for both, starts one shared countdown at 15 and makes the first call at once, leaving 14 seconds; both players' `counter` is that countdown |
| Game.Server.StartRound | server/main.js:337-354 | the deal messages are sent for the hands as they are, both players are `playing`, and they share one fresh countdown after its first call |
| Game.Server.DealCards | server/main.js:309-354 | see the details after this table |
| Game.Server.OnJoin | server/main.js:119-125 | the player takes the name and is sent `matching_player`. With no other player matching it stays `matching` and keeps its reference to its old opponent; otherwise it is paired with the first one found and both are sent `new_game`. The old opponent, unless it is the one found, loses its back-reference and keeps its state, and no other registry entry changes |
| Game.Server.OnReady | server/main.js:127-145 | without an opponent the player is told the opponent left and its state, hand and countdown are kept. With one, the player is `ready` and both are told. If the opponent was not ready, both hands, the opponent's state and both countdowns are kept; if it was, the hands `DealtHands` describes are dealt, both are `playing`, and both `counter` fields hold one fresh countdown that captures the pair and has made its first call |
| Game.Server.OnPlay | server/main.js:167-170 | the guess outcome `CheckGuess` describes, followed by the game-over messages `GameoverLog` describes, and no player's view of the turn changes |
| Game.Server.OnPunish | server/main.js:183-186 | the player's hand becomes the punished hand, the punish messages and then the game-over messages are sent, and after a real punishment the turn is with the opponent |
| Game.Server.DispatchPairing | server/main.js:119-162 | the `join`, `ready`, `on_reorder` and `resign` routes, each with its full outcome and the fields it keeps, as listed for `Dispatch` after this table |
| Game.Server.DispatchGame | server/main.js:167-195 | the `play`, `select_card`, `punish` and `skip` routes and an unknown action, each with its full outcome; none of them changes a player's name, state, opponent or countdown |
| Game.Server.Dispatch | server/main.js:105-195 | see the details after this table |

Details for the longer rows:

- **Game.Server.MatchPlayer.** The player's old opponent loses its reference back.
  - If the search finds a candidate, the candidate is a different player. Both become `matched`, each is the other's opponent, each is sent `new_game` with the other's name, and the invariant is kept.
  - If it finds none, the player stays `matching`, keeps its old opponent and is sent nothing.
  - In both cases no other registry entry changes.
- **Game.Server.DealCards.** If the opponent is missing or not ready, nothing changes. Otherwise:
  - Both players get hands of ten whose normal cards are ordered. The hands share no card and both come from the deck.
  - Both players are `playing`, and they share one fresh countdown at 14 seconds.
  - The hands are exactly `DealtHands` of the draws: the sorted slices [0, 10) and [10, 20) of the shuffled deck.
  - The log gains the deal messages described by `DealHidesOpponentHand`.
- **Game.Server.Dispatch.**
  - For an uninitialised player, every request except `join` changes nothing and sends nothing.
  - `join` has the outcome `OnJoin` states, with the search made before the name is set.
  - `ready` has the outcome `OnReady` states.
  - `on_reorder` replaces the player's hand unchecked and sends nothing.
  - `resign` has the outcome `Resign` states: the player is uninitialised with no opponent, the opponent is told and unpaired, and both countdowns are stopped.
  - `play` has the outcome `OnPlay` states, and `punish` the outcome `OnPunish` states.
  - `select_card` is forwarded to the opponent, if any.
  - `skip` sends the turn-switch messages with the turn given to the opponent, and nothing without one.
  - An unknown action changes nothing and sends nothing, since the switch has no default branch.
  - For every field the routes may touch, the contract names the routes that can change it, and every other route keeps it:
    - the player's name (`join` only), state (`join`, `ready`, `resign`), opponent (`join`, `resign`), hand (`ready`, `on_reorder`, `punish`) and countdown (`ready`);
    - the old opponent's state (`join`, `ready`), opponent (`join`, `resign`), hand (`ready`, `play`) and countdown (`ready`), and its name always;
    - the state and opponent of every other registry entry (`join` only);
    - the clocks of both players' countdowns (`resign` only).
  - The invariant is kept.

## Left out

- WebSocket and HTTP set-up, `sendUTF` and JSON encoding (server/main.js:6-42, 75-76, 233-235). Sending is modelled as appending to the log, and message contents are datatypes.
- JSON and `parseInt` parsing of inbound messages (server/main.js:109, 153, 534-535, 575). `Request` carries the already-parsed integers and hand. A value that does not parse as a number is not modelled.
- The exact hint texts and `display_str`, which are presentation only. `Hint` names each kind of hint and its parameters, and `Cards.Display` stands for the face texts.
- `console.log`, and the `getId` helper, which no handler calls.
- The player states `waiting` and `over`, which the source declares but never assigns.
- The timing of `setTimeout` and `setInterval`. The interval is a `Countdown` object whose `Tick` the environment calls, and `clearInterval` marks it stopped.
- Game.Server.BroadcastPlayersList: the one-second debounce is not modelled. The broadcast happens at once with the registry as it is then, whereas the source sends once per burst, with the registry as it is when the timer fires.
- The distribution of `Math.random`. The draws are parameters, and no uniformity property is stated.
- Game.Server.DealCards: the draws for each hand's special cards are supplied as a sequence of ten, however many special cards the hand has. The splice uses one draw per special card, in order, as the source does, and ignores the rest.
- Game.Server.Dispatch: inputs on which the source throws a TypeError are excluded by `Handles` and by the handlers' preconditions, not modelled as a crash. These are:
  - an index outside a hand;
  - an empty hand in the game-over sum;
  - a winner whose opponent is gone.
- Cards.Compare: the source hands this comparator to `Array.prototype.sort`. Because it never answers a positive number, the order that sort produces depends on the engine. The model sorts by the order the comparator evidently intends (`Cards.Le`) and proves the comparator agrees with that order.
- Game.Server.Connect: the model assumes that connection keys are distinct, which the source does not check. So ids are taken to be unique, and Connect requires that the new id is not yet registered.
- A value in a hand sent back through `on_reorder` is taken as a card with an integer value and a `show` that is a natural number. A negative `show` and other JSON shapes are not modelled.
