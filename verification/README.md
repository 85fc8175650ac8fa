# Memory game engine in Dafny

This project models the game-state engine of a browser memory (card-pairs)
game. The engine deals a shuffled deck that holds every symbol twice. It
accepts clicks on cards, and on the second card of a turn it counts a move,
locks the board and schedules a verdict 800 ms later. The verdict either
marks the pair matched or turns both cards face down again. The engine also
runs a one-second clock from the first accepted click until the game is won.
Beside the engine sit the star rating shown when the game is won and the
constant table of difficulty levels.

The hook's React state cells and refs become one immutable record,
`Engine.Game`. Every event is a pure transition on that record:

- `Flip` is a click on a card.
- `Resolve` is the 800 ms timeout firing. It acts on the `Resolution` that
  the completing click captured.
- `Tick` is one firing of the one-second interval.
- `StartTimer` and `StopTimer` start and stop the clock.
- `Restart` is the New Game button.

The delays are explicit steps, and the caller picks their order.
`Math.random` is an oracle: `js[i]` is the index the shuffle draws at the
loop step for `i`, with `0 <= js[i] <= i`.

Modules:

- `Optional`: the `Option` type, used where the source's `find` can return `undefined`.
- `Types`: the card record, the difficulty levels and their table (`src/types.ts`).
- `Deck`: the Fisher–Yates shuffle, as a function and as the source's in-place array loop, and deck creation.
- `Engine`: the state machine, its invariant `Valid` and the lemmas about it (`src/hooks/useMemoryGame.ts`).
- `Rating`: the star rating (`src/components/GameBoard.tsx`).
- `Sessions`: what a restart during a pending verdict does. It has the as-written consequence and a corrected design with generation tokens.

The invariant `Valid` collects what every state reachable by clicks, verdicts
and ticks satisfies:

- the deck deals each symbol of the game twice, and card ids are positions;
- matched cards are face up, and there are `2 * matches` of them, so `matches <= totalPairs`;
- at most two ids are pending, the board is locked exactly when two are, and the face-up unmatched cards are exactly the pending ones;
- the clock runs only after the first accepted click, and never in a won game.

## Model

| member | source | states |
|---|---|---|
| Types.Config | src/types.ts:17-36 | For every level: `pairs` equals the number of symbols and is positive. The three-star ceiling is below the two-star one. `cols` is positive and divides the `2 * pairs` cards, so the grid is rectangular. The table is total over the three `Difficulty` cases. |
| Deck.ShuffleFrom | src/hooks/useMemoryGame.ts:8-11 | Running the swap loop from step `i` down to step 1 gives a permutation of the input of the same length. This holds for any random indices in range. |
| Deck.Shuffle | src/hooks/useMemoryGame.ts:6-13 | Fisher–Yates returns a permutation of its input (same length, same multiset). This holds for every in-range choice of the random indices. |
| Deck.ShuffleArray | src/hooks/useMemoryGame.ts:6-13 | The in-place array loop computes exactly `Shuffle`, so its result is a permutation of the input. |
| Deck.CreateCards | src/hooks/useMemoryGame.ts:15-24 | The deck has `2 * |emojis|` cards. Card `k` has id `k` and starts face down and unmatched. Every symbol occurs exactly twice as often as in `emojis`. |
| Engine.FindIndex | src/hooks/useMemoryGame.ts:73 | `find` finds nothing exactly when no card carries the id. Otherwise it stops at the first card that carries it. |
| Engine.NewGame | src/hooks/useMemoryGame.ts:26-37 | The initial state is valid. Its deck is a fresh deal. All counters are zero, nothing is pending, the board is unlocked and the clock is stopped and not yet started. |
| Engine.StartTimer | src/hooks/useMemoryGame.ts:41-46 | Afterwards the clock runs. Starting a running clock is a no-op. Nothing but the clock flag changes. |
| Engine.StopTimer | src/hooks/useMemoryGame.ts:48-53 | Afterwards the clock is stopped. Stopping a stopped clock is a no-op. Nothing but the clock flag changes. |
| Engine.Tick | src/hooks/useMemoryGame.ts:43-45 | Seconds advance by one exactly when the clock runs. Nothing else changes. |
| Engine.Flip | src/hooks/useMemoryGame.ts:69-97 | The state is unchanged exactly when the click is rejected (board locked, no card with the id, or that card face up or matched). An accepted click appends the id to the pending ids, marks the game started, and starts the clock on the first accepted click. On the second pending id it counts exactly one move, locks the board and schedules a verdict. On the first pending id, moves and lock stay as they were. Matches and seconds never change. |
| Engine.Resolve | src/hooks/useMemoryGame.ts:98-121 | If the captured cards are missing, nothing changes. Otherwise the pending ids and the lock are cleared, matches grow by one exactly when the captured symbols are equal, and cards with other ids are untouched. The clock is stopped when this step wins the game and keeps its state otherwise. Moves and seconds are unchanged. |
| Engine.Restart | src/hooks/useMemoryGame.ts:127-136 | The result equals a freshly mounted game. It is valid, and its deck satisfies the deal properties. Moves, matches and seconds are 0, nothing is pending, the board is unlocked and the clock is stopped and not started. It is won only when there are no symbols at all. |
| Engine.FlipPositional | src/hooks/useMemoryGame.ts:71-85 | In a valid game a click is accepted exactly when the board is unlocked and the card at that position is face down and unmatched. It then reveals that card and changes no other card. |
| Engine.WonIffAllMatched | src/hooks/useMemoryGame.ts:39 | In a valid game `matches <= totalPairs`, and the derived win holds exactly when every card is matched. |
| Engine.FlipPreservesValid | src/hooks/useMemoryGame.ts:69-97 | A click keeps the game valid. A verdict it schedules belongs to the resulting turn: the ids are the two pending ids and the captured cards are those cards. |
| Engine.ResolveOutcome | src/hooks/useMemoryGame.ts:98-121 | In a valid game, equal symbols make both cards matched and still face up, with one more match. Otherwise both turn face down and matches stay the same. Either way the turn is cleared and every other card is unchanged. The clock stops exactly when this verdict wins the game. |
| Engine.ResolvePreservesValid | src/hooks/useMemoryGame.ts:98-121 | The verdict of the current turn keeps the game valid. This includes the matched count staying `2 * matches` and the clock being stopped once the game is won. |
| Engine.TickPreservesValid | src/hooks/useMemoryGame.ts:43-45 | A tick keeps the game valid. |
| Engine.WonIsFinal | src/hooks/useMemoryGame.ts:55-60 | In a won valid game every click is rejected and a tick leaves the state, including the seconds, unchanged. |
| Engine.TurnOutcome | src/hooks/useMemoryGame.ts:69-121 | From a quiet valid board, clicking two face-down cards and then firing the verdict counts one move. It counts a match exactly when the symbols are equal, leaving both matched, and otherwise turns both face down. The board ends unlocked and valid. |
| Engine.BoardGame | src/components/GameBoard.tsx:21 | The board's game uses the default symbols: 8 pairs on 16 cards, the size of the medium level, not won at the start. |
| Rating.StarRating | src/components/GameBoard.tsx:4-8 | The rating is 1 to 3 star glyphs: 3 exactly when moves ≤ 10, 2 exactly when 10 < moves ≤ 16, 1 exactly when moves > 16. |
| Rating.StarRatingNonIncreasing | src/components/GameBoard.tsx:4-8 | More moves never earn more stars. |
| Sessions.StaleMatchCorruptsRestart | src/hooks/useMemoryGame.ts:127-136 | As written, take any scheduled verdict of two equal symbols whose ids lie in the deck (every matching verdict scheduled in a valid game qualifies). If New Game is clicked and then that old timeout fires, the new game counts one match and holds a matched card that is face down, so it is no longer valid. |
| Sessions.FireKeepsValid | src/hooks/useMemoryGame.ts:98-121 | With generation-stamped verdicts, firing any outstanding verdict, current or stale, keeps the game valid. |
| Sessions.RestartRetiresTickets | src/hooks/useMemoryGame.ts:127-136 | After a restart every earlier verdict is stale, and firing it changes nothing. |
| Sessions.LiveWhileWaiting | src/hooks/useMemoryGame.ts:71 | While a verdict waits, clicks (locked out) and ticks keep it the verdict of the current turn. |
| Sessions.ClickTicketLive | src/hooks/useMemoryGame.ts:90-97 | A click keeps the session valid, and any verdict it schedules is stamped with the current generation and belongs to the current turn. |

## Findings

| source | as written | input that shows it | evidently intended | confidence | as-written member | corrected member |
|---|---|---|---|---|---|---|
| src/hooks/useMemoryGame.ts:127-136 | `restart` clears the state but does not cancel the 800 ms timeout of a completed turn. The new deck reuses ids `0 .. 2n-1`, so the old callback marks two cards of the new game and counts a match there. | Flip two cards with the same symbol, then click New Game before 800 ms pass. | The verdict of a discarded game has no effect on its successor. | high (not executed) | Sessions.StaleMatchCorruptsRestart | Sessions.FireKeepsValid |

The corrected design is the `Sessions` layer:

- A `Session` pairs the game with a generation that every restart advances.
- Each scheduled verdict is a `Ticket` stamped with the generation that scheduled it.
- `Fire` applies only a ticket of the current generation.

The engine itself (`Engine.Resolve`, `Engine.Restart`) stays as written. This
makes the discrepancy visible rather than hidden.

## Notes on the code

- `getStarRating` uses the fixed ceilings 10 and 16. It ignores the table's thresholds (6/10, 12/18 and 18/28), and no level has 10/16.
- The hook never reads the difficulty table. The board calls it with the eight default symbols, and `restart` reuses the hook's own symbol list.
- In the hard list, entries 4 and 8 read as the same text. The model makes no distinctness claim and proves nothing that depends on one.
- `restart` does not stop a pending verdict from reaching the new game (see Findings).

## Left out

- React mechanics (`useState`, `useRef`, `useCallback`, `useEffect`, batching) and stale closures. The model applies one event at a time to the current state. The source's click handler reads `cards` and `isChecking` from the last render instead.
- Wall-clock timing (the 1000 ms interval and the 800 ms timeout). The caller chooses when `Tick` and `Resolve` happen.
- The uniformity of the shuffle and `Math.random` itself. The random indices are an oracle that is only known to be in range.
- The unmount cleanup (src/hooks/useMemoryGame.ts:62-67). It stops the clock of a game that is discarded, and nothing can observe it afterwards.
- A `TypeError` thrown by the timeout callback when `find` had returned `undefined`. It is modelled as no change to the state, and `Engine.FlipPreservesValid` shows that it never happens in a valid game.
- The number of stars comes back as that many `⭐` characters, as in the source. The overlay markup around it is left out.
- The card component's click guard (src/components/Card.tsx:10-14). It is a subset of `Flip`'s own guards.
- All JSX and styling in the board, the card component and the app shell.
- The concrete emoji of the difficulty table. The table text is mis-encoded, so the symbols are best readings, and no property depends on their values.
- JavaScript numbers. Moves, matches and seconds are unbounded naturals. The source's doubles count exactly far beyond any reachable value.
