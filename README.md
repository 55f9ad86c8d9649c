# Memory game (6x6) — a Dafny model

This project models the game logic of a browser memory game, `script.js`.
The game board has 36 face-down cards. A player turns up two cards per turn.
A pair with equal symbols stays face up as matched. Any other pair turns face
down again. Each completed pair of picks counts one move. A one-second timer
starts with the first pick of a game. The game is won when 18 pairs are
matched. The win modal then stops the timer and shows the moves and the time
as "mm:ss".

The model has three modules:

- `Deck` (`deck.dfy`): the symbol list, the cards, the shuffle and the deal.
  - The symbol list has 18 entries, but Shark appears twice (script.js:12
    and script.js:14). So there are only 17 distinct symbols, and a fresh
    deck holds four Sharks.
  - The model follows the code here, not the comment "18 pairs". Four Sharks
    still make two pairs, so all 18 pairs can still be found.
  - The random sort is modelled by `draws`: the choices of a selection
    shuffle, taken as a parameter. `ShufflePermutes` proves that every
    choice gives a rearrangement of `symbols ++ symbols`.
    `ShuffleReachesEveryArrangement` proves that every rearrangement is
    reachable. So the model covers exactly the decks the sort can produce.
- `Clock` (`clock.dfy`): the "mm:ss" text built from the timer. It is proved
  to have the right shape and to read back to the same number of seconds.
- `Game` (`game.dfy`): the module-level state as the class `MemoryGame`.
  - The fields are `cards`, `flippedCards`, `matchedPairs`, `moves`, `timer`,
    `timerRunning` and `gameStarted`. The methods update these fields.
  - `cards` is a sequence of card values. `flippedCards` holds the positions
    of the picked cards (a card's position is its id).
  - The two callbacks that `checkMatch` schedules are separate steps,
    `ResolveMatch` and `ResolveMismatch`, as are the timer tick and the win
    modal.
  - `Valid()` is the invariant every step keeps. Among other things it says
    that the timer runs from the first pick of a game until the last pair is
    found.
  - Client methods show that a fresh game can always be won in exactly 18
    moves.

## Model

| member | source | states |
|---|---|---|
| `Deck.Pool` | script.js:36 | The unshuffled deck is the symbol list twice, 36 symbols. |
| `Deck.Shuffle` | script.js:36-37 | A shuffle keeps the length of the deck. |
| `Deck.ShufflePermutes` | script.js:36-37 | Every shuffle is a permutation: each symbol keeps its multiplicity. |
| `Deck.ShuffleReachesEveryArrangement` | script.js:37 | Every permutation of the pool is produced by some valid choice of draws. |
| `Deck.DrawsFor` | script.js:37 | Constructs the draws that shuffle a pool into a given permutation of it. |
| `Deck.SymbolsOf` | script.js:38-43 | The symbols of a row of cards, position by position. |
| `Deck.SymbolsOfUpdate` | script.js:91 | Changing only a card's flags leaves the symbols of the row unchanged. |
| `Deck.Deal` | script.js:38-43 | Cards carry the given symbols in order, each with its index as id, face down and unmatched. |
| `Deck.BuildDeck` | script.js:36-43 | A fresh deck has 36 cards with ids 0..35, all face down and unmatched. |
| `Deck.BuildDeckSymbols` | script.js:36-43 | A fresh deck holds exactly the multiset of `symbols ++ symbols`. |
| `Deck.PoolCounts` | script.js:11-15 | The doubled list holds four Sharks and two of every other symbol. |
| `Deck.SymbolsCount` | script.js:11-15 | The symbol list names Shark twice and every other symbol once. |
| `Deck.BuildDeckCounts` | script.js:36-43 | Every fresh deck holds four Sharks and two of every other symbol. |
| `Deck.DoubledIsEven` | script.js:36 | A list followed by itself holds each element an even number of times. |
| `Deck.DoubledCount` | script.js:36 | A list followed by itself holds each element twice as often as the list. |
| `Deck.BuildDeckEven` | script.js:36-43 | In every fresh deck each symbol occurs an even number of times. |
| `Clock.SplitTime` | script.js:158-159 | Minutes and seconds: seconds below 60, and minutes*60+seconds equals the timer. |
| `Clock.Decimal` | script.js:161 | `String(n)` is a non-empty string of digits, one digit exactly when n < 10, with no leading zero. |
| `Clock.PadStart2` | script.js:161 | `padStart(2,'0')`: length max(2, len), the original as suffix, zeros in front. |
| `Clock.FormatTime` | script.js:158-161 | The text is digits whose value is `floor(t/60)`, a colon, and exactly two digits whose value is `t % 60`; it is exactly 5 characters when t < 6000, and a longer text does not start with '0'. |
| `Clock.TimeFields` | script.js:158-161 | The two padded fields joined by a colon read back to the minutes and the seconds; 5 characters below 100 minutes, and no leading '0' beyond two minute digits. |
| `Clock.LeadingDigit` | script.js:161 | A minutes field longer than two characters is unpadded, so the text does not start with '0'. |
| `Clock.Colon` | script.js:161 | Minute and second fields are recovered from their positions around the colon. |
| `Clock.Field` | script.js:161 | One padded field of the display is all digits, at least two of them. |
| `Clock.TwoDigitsAtMost` | script.js:159-161 | The seconds field (below 60) has at most two digits, so it is padded to exactly two. |
| `Clock.ParseDecimalOfDecimal` | script.js:161 | Reading `String(n)` back gives `n`. |
| `Clock.PadStart2Value` | script.js:161 | Zero padding keeps the value of a digit string. |
| `Clock.FormatTimeRoundTrip` | script.js:158-161 | Reading the "mm:ss" text back gives the timer value: distinct times display differently. |
| `Clock.FormatZero` | script.js:22 | The timer of a fresh game reads "00:00". |
| `Game.MatchedCount` | script.js:119 | Count of matched cards, at most the number of cards. |
| `Game.MatchedCountUpdate` | script.js:110-111 | Replacing one card changes the count only by that card's contribution. |
| `Game.AllMatchedIff` | script.js:124 | The count equals the length exactly when every card is matched. |
| `Game.NoneMatchedIff` | script.js:41-42 | The count is zero exactly when no card is matched. |
| `Game.InPlayCount` | script.js:80 | Count of unmatched cards with a given symbol. |
| `Game.InPlayCountUpdate` | script.js:110-111 | Replacing one card changes each in-play count only by that card's contribution. |
| `Game.InPlayWitness` | script.js:80 | A symbol with a positive in-play count is on some unmatched card. |
| `Game.PartnerExists` | script.js:107-111 | When counts in play are even, every unmatched card has another unmatched card with its symbol. |
| `Game.PairAvailable` | script.js:124 | While fewer than all cards are matched and counts in play are even, an unmatched pair of equal symbols remains. |
| `Game.NothingMatchedInPlay` | script.js:42 | With nothing matched, the in-play count is the symbol's multiplicity. |
| `Game.FreshDeckEvenInPlay` | script.js:36-43 | In a fresh deck every symbol is in play an even number of times. |
| `Game.MatchKeepsEven` | script.js:110-111 | Matching two unmatched cards with equal symbols keeps every in-play count even. |
| `Game.MemoryGame.constructor` | script.js:2-8 | Initial state followed by the deal on load: zero counters, no picks, timer stopped, fresh deck. |
| `Game.MemoryGame.InitGame` | script.js:18-47 | Reset: counters zero, no picks, not started, timer stopped, cards are the fresh deck; keeps `Valid()`. |
| `Game.MemoryGame.IgnoresClick` | script.js:80 | The click guard; in a valid state a click is ignored exactly when its card is face up or two cards are already picked. |
| `Game.MemoryGame.HandleCardClick` | script.js:72-101 | Ignored click (flipped, matched, or two picked) changes nothing. Otherwise the first click starts the timer, the card flips and is appended, a completed pair adds one move. The symbols on the board are unchanged. Keeps `Valid()`. |
| `Game.MemoryGame.ResolveMatch` | script.js:109-127 | Both cards matched, one more pair, picks cleared, other fields unchanged. Won iff 18 pairs iff every card matched, and then every click is ignored. Symbols unchanged. |
| `Game.MemoryGame.ResolveMismatch` | script.js:130-141 | Both cards face down again, picks cleared, matched flags, symbols and counters unchanged. |
| `Game.MemoryGame.CheckMatch` | script.js:104-143 | Equal symbols lead to the match outcome, different symbols to the flip-back; never a win on a mismatch. |
| `Game.MemoryGame.Tick` | script.js:147-150 | Each tick of the running timer adds one second and keeps `Valid()`. |
| `Game.MemoryGame.ShowWinModal` | script.js:165-175 | Called only once all 18 pairs are found (script.js:124-125). The timer stops. Reports the move count and the "mm:ss" text of the timer. |
| `Game.MemoryGame.StopTimer` | script.js:166 | `clearInterval` after the last pair: the timer is stopped and `Valid()` still holds. |
| `Game.PlayPair` | script.js:72-127 | Two clicks on an unmatched pair, then the match: both matched, one move, one pair. |
| `Game.PlayPerfectly` | script.js:72-175 | From any valid state with even counts in play, perfect play matches every card, one move per remaining pair. |
| `Game.WinFreshGame` | script.js:18-175 | Every fresh deck, whatever the shuffle, is won in exactly 18 moves; with no tick the time reads "00:00". |
| `Game.MismatchScenario` | script.js:72-141 | Two clicks on different symbols, then the flip-back: deck as dealt, one move, no pair, timer running. |
| `Game.MatchScenario` | script.js:72-127 | Two clicks on equal symbols, then the match: both matched, one move, one pair. |

## Left out

- Rendering and the DOM (`renderBoard`, CSS classes, text content): only the
  "mm:ss" text of `updateStats` and `showWinModal` is modelled, as
  `Clock.FormatTime`. The move count and the "n/18" label are plain field
  reads.
- `hideWinModal` and the event listeners (script.js:177-187): they only show
  or hide the modal and call `initGame`, which is `InitGame`.
- Timer delays: the 500 ms and 1000 ms callbacks of `checkMatch`, the extra
  500 ms before the win modal, and the one-second interval. Each callback is
  an explicit step (`ResolveMatch`, `ResolveMismatch`, `ShowWinModal`,
  `Tick`) that the caller invokes.
- Reset while a callback is pending: the model has no interleaving of a reset
  with scheduled callbacks. `ResolveMatch`/`ResolveMismatch` require the two
  picks to still exist.
- `Math.random` and the distribution of the comparator-based sort, including
  its bias. The shuffle's random choices are the `draws` parameter.
- `Game.MemoryGame.HandleCardClick`: an id outside 0..35, where `cards.find`
  returns `undefined` and the script throws, is excluded by a precondition.
- The `timerInterval` handle is a boolean, `timerRunning`. The source also
  calls `clearInterval` again on a reset after a win; that has no effect.
- `Game.MemoryGame.Valid`: the multiset of symbols on the board is not part
  of the invariant. It is proved for the deal (`Deck.BuildDeckSymbols`), and
  `HandleCardClick`, `ResolveMatch`, `ResolveMismatch` and `CheckMatch` each
  ensure that the row of symbols is unchanged (`Tick`, `StopTimer` and
  `ShowWinModal` cannot modify the cards).
