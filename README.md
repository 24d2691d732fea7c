# Flashcard decks and the quick game, in Dafny

This project models the two pieces of logic in a small flashcard study
application written as React pages.

- **Deck configuration** (`configuracion.dfy`, module `Configuracion`). Users
  keep a list of decks. Each deck has an id, a name and an ordered list of
  flashcards. Each flashcard has an id, a question, an answer and two nullable
  timestamps, `lastAnswered` and `blockedUntil`. The page keeps the list and the
  id of the selected deck, `currentDeck`. Four handlers rebuild the list:
  `addDeck`, `addFlashcard`, `updateFlashcard` and `deleteFlashcard`. Each
  changes only the decks whose id equals `currentDeck`. Each except
  `deleteFlashcard` does nothing when its form input is empty.
  - The list rewrites are pure functions over sequences: `MapCurrent`,
    `ReplaceCards` and `RemoveCards`.
  - The page itself is the class `ConfigPage`. Its handler methods reassign
    its fields.
  - Ids come from the clock in the page. Here they are a parameter
    (`freshId`). Nothing makes ids unique, and the model does not assume it:
    every deck with the current id is edited, and the lookup takes the first
    deck with the id.
  - The status column is `CardStatus`. It models the page's truthiness test
    exactly, so a `blockedUntil` of 0 reads as "not blocked". This differs
    from a plain `blockedUntil > now` comparison only for clock readings below
    zero, which the page's clock never gives (`ZeroStampReadsAvailable`).
- **Quick game** (`juego_rapido.dfy`, module `JuegoRapido`). The game plays a
  fixed sample deck of four cards. Each rating button appends the rating to
  `ratings` and advances `currentCardIndex` only while the index is below
  `length - 1`. The page tests for game over with `index == length`. When
  that holds, it shows a summary: the deck size and one count per rating
  category.
  - The step is the pure function `Rate`, and the class `QuickGame` applies
    it in place.
  - As written, the index never passes 3. So the game-over test never holds
    and the summary is never shown (`NeverGameOver`). This is recorded under
    Findings.

The code has no scheduler: no list of available cards, no choice of the next
card, no rating-to-lockout table, and no code that writes `lastAnswered` or
`blockedUntil`, so none of that is modelled. The only time logic is the
status column's comparison with the clock. `StatusMatchesAvailability` relates
it to the rule that a card is available when it was never blocked or its block
has expired (`IsAvailableAt`).

## Model

| member | source | states |
|---|---|---|
| `Configuracion.CountId` | src/app/configuracion/page.tsx:121 | the number of cards with an id is at most the card count, and zero exactly when no card has that id |
| `Configuracion.ReplaceCards` | src/app/configuracion/page.tsx:102-104 | the card count is kept; every card with the edited card's id becomes the edited card; every other card keeps its value and position |
| `Configuracion.RemoveCards` | src/app/configuracion/page.tsx:121 | the count drops by exactly the number of cards with the id, and no surviving card has that id |
| `Configuracion.RemoveCardsMembers` | src/app/configuracion/page.tsx:121 | a card survives exactly when it was present and its id differs |
| `Configuracion.ApplyEdit` | src/app/configuracion/page.tsx:82 | adding a card puts exactly one card, the new one, after the unchanged old cards; a replacement keeps the card count; a removal drops exactly the cards with the id |
| `Configuracion.MapCurrent` | src/app/configuracion/page.tsx:80-84 | the deck count, order, ids and names are kept; decks whose id is not current are untouched; every deck whose id is current gets its card list edited |
| `Configuracion.FindDeck` | src/app/configuracion/page.tsx:132 | finds the first deck with the id, or none exactly when no deck has it |
| `Configuracion.CurrentDeckCards` | src/app/configuracion/page.tsx:132 | the cards of the first deck whose id is current, or empty when no deck has that id |
| `Configuracion.CardStatus` | src/app/configuracion/page.tsx:217 | "blocked" is reported only for a non-null `blockedUntil` that is after now; a null one is always "available" |
| `Configuracion.StatusMatchesAvailability` | src/app/configuracion/page.tsx:217 | for any clock reading of zero or more, a card is shown available exactly when `blockedUntil` is null or not after now, and blocked exactly when it is after now |
| `Configuracion.ZeroStampReadsAvailable` | src/app/configuracion/page.tsx:217 | for every clock reading below zero, a stamp of 0 reads as available although it is after now, because 0 is falsy; together with `StatusMatchesAvailability` this is the only place the test and the availability rule differ |
| `Configuracion.OnlyZeroStampDiffers` | src/app/configuracion/page.tsx:217 | for every clock reading, negative ones included, a card whose stamp is not 0 is shown available exactly when the availability rule calls it available |
| `Configuracion.InitialSelection` | src/app/configuracion/page.tsx:39-43 | without stored decks the list is empty and no deck is current; otherwise the stored list is loaded, and if it is non-empty the first stored deck becomes current and its cards are the ones shown |
| `Configuracion.RemoveCardsNoMatch` | src/app/configuracion/page.tsx:121 | removing an id that no card carries leaves the list as it was |
| `Configuracion.RemoveCardsIdempotent` | src/app/configuracion/page.tsx:121 | filtering out the same id twice gives the same cards as filtering it once |
| `Configuracion.DeleteFlashcardIdempotent` | src/app/configuracion/page.tsx:119-123 | rebuilding the deck list with the same deletion twice gives the same decks as doing it once |
| `Configuracion.RemoveCardsAppend` | src/app/configuracion/page.tsx:121 | removal keeps the surviving cards in their original order: removing from a concatenation concatenates the removals |
| `Configuracion.ReplaceCardsIdempotent` | src/app/configuracion/page.tsx:102-104 | saving the same edited card twice gives the same cards as saving it once |
| `Configuracion.FindDeckAfterEdit` | src/app/configuracion/page.tsx:132 | no card edit changes which deck a lookup by id finds |
| `Configuracion.CurrentCardsAfterEdit` | src/app/configuracion/page.tsx:132 | after an edit, the card table shows the current deck's cards with that edit applied, or stays empty when no deck is current |
| `Configuracion.FindDeckAppend` | src/app/configuracion/page.tsx:59 | appending a deck does not change a lookup that already found an older deck; the new deck is found only when no older deck has its id |
| `Configuracion.AddDeckSelection` | src/app/configuracion/page.tsx:54-62 | after adding a deck and selecting its id, the table shows what it showed for that id before when an older deck shares the id, and the new empty deck otherwise |
| `Configuracion.ConfigPage.constructor` | src/app/configuracion/page.tsx:29-45 | on mount the decks and current deck are what the load effect selects; the form fields are empty and nothing is being edited |
| `Configuracion.ConfigPage.SetNewDeckName` | src/app/configuracion/page.tsx:147 | the deck-name field takes the typed value and nothing else changes |
| `Configuracion.ConfigPage.SetNewQuestion` | src/app/configuracion/page.tsx:185 | the question field takes the typed value and nothing else changes |
| `Configuracion.ConfigPage.SetNewAnswer` | src/app/configuracion/page.tsx:190 | the answer field takes the typed value and nothing else changes |
| `Configuracion.ConfigPage.SelectDeck` | src/app/configuracion/page.tsx:160 | the chosen id becomes the current deck and nothing else changes |
| `Configuracion.ConfigPage.StartEditing` | src/app/configuracion/page.tsx:224 | the row's card becomes the card being edited and nothing else changes |
| `Configuracion.ConfigPage.EditQuestion` | src/app/configuracion/page.tsx:240 | only the question of the card being edited changes |
| `Configuracion.ConfigPage.EditAnswer` | src/app/configuracion/page.tsx:251 | only the answer of the card being edited changes |
| `Configuracion.ConfigPage.AddDeck` | src/app/configuracion/page.tsx:52-69 | with an empty name, the decks and current deck are unchanged; otherwise exactly one deck with no cards is appended after the old decks, it becomes current, and the name field is cleared |
| `Configuracion.ConfigPage.AddFlashcard` | src/app/configuracion/page.tsx:71-94 | a no-op unless the question, answer and current deck are all non-empty; otherwise one card with null timestamps is appended to every deck with the current id, and both fields are cleared |
| `Configuracion.ConfigPage.UpdateFlashcard` | src/app/configuracion/page.tsx:96-116 | a no-op unless a card is being edited with a non-empty question and answer and a deck is current; otherwise every card with its id in the current deck is replaced, and the edit is closed |
| `Configuracion.ConfigPage.DeleteFlashcard` | src/app/configuracion/page.tsx:118-130 | every card with the id is removed from each deck with the current id, and nothing else changes |
| `JuegoRapido.Rate` | src/app/juego-rapido/page.tsx:20-25 | exactly one rating is appended and earlier ratings are unchanged; the index grows by one only while below the bound and otherwise stays; the bound on the index is preserved |
| `JuegoRapido.RateAll` | src/app/juego-rapido/page.tsx:17-25 | a run of the handler from the start (index 0, no ratings) records exactly the ratings given, in order, and keeps the index between 0 and the bound |
| `JuegoRapido.RateAllShape` | src/app/juego-rapido/page.tsx:17-24 | after n ratings from the start, `ratings` is exactly those ratings in order and the index is min(n, bound) |
| `JuegoRapido.IsGameOver` | src/app/juego-rapido/page.tsx:27 | when the game is over no sample card can be shown; for indices from 0 to the deck size, the game is over exactly when the index has reached the deck size |
| `JuegoRapido.NeverGameOver` | src/app/juego-rapido/page.tsx:22-27 | as written, for every sequence of ratings the index stays between 0 and length-1, so the game-over test never holds |
| `JuegoRapido.CorrectedGameOver` | src/app/juego-rapido/page.tsx:22-27 | with the bound at length, the game is over exactly when at least four ratings were given |
| `JuegoRapido.Count` | src/app/juego-rapido/page.tsx:31-34 | a category's count is at most the number of ratings, and zero exactly when the category was never given |
| `JuegoRapido.CountsSum` | src/app/juego-rapido/page.tsx:31-34 | the four category counts add up to the number of ratings |
| `JuegoRapido.CountAppend` | src/app/juego-rapido/page.tsx:31-34 | counting over two rating lists joined together gives the sum of the two counts |
| `JuegoRapido.GameSummary` | src/app/juego-rapido/page.tsx:29-34 | the total is the sample-deck size, not the number of ratings; each count is at most the number of ratings, and together they sum to it |
| `JuegoRapido.CorrectedSummaryTotals` | src/app/juego-rapido/page.tsx:27-34 | with the corrected bound, four ratings end the game, and the summary's counts add up to its total |
| `JuegoRapido.QuickGame.constructor` | src/app/juego-rapido/page.tsx:17-18 | the game starts at card 0 with no ratings |
| `JuegoRapido.QuickGame.HandleRate` | src/app/juego-rapido/page.tsx:20-25 | the new state is one as-written rating step from the old one; the index stays a valid card index and the game is never over |
| `JuegoRapido.QuickGame.ShownCard` | src/app/juego-rapido/page.tsx:57-58 | the card on screen is the sample card at the index, and that index is always in range |
| `JuegoRapido.PlayAsWritten` | src/app/juego-rapido/page.tsx:17-25 | pressing rating buttons on a fresh page ends with exactly those ratings and the index at min(n, length-1) |

## Left out

- Rendering, toasts, dialogs, the selector widget and navigation links: presentation with no state beyond the fields modelled.
- Reading and writing the browser store, and JSON parsing and printing: these are I/O. The stored deck list is a constructor parameter, `None` when the key was never written. Stored documents are assumed well formed, so a stored `null` or a parse failure is not modelled.
- The clock: ids (`Date.now().toString()`) and the status column's "now" are parameters.
- Timestamps are whole milliseconds (`int`). The page types them as any number, so a fractional stored stamp such as 0.5 is not representable; no code of the page writes one. The status results above hold for whole-millisecond stamps.
- `Configuracion.ConfigPage.EditQuestion`: requires a card to be under edit. After a save clears the edit, the still-open dialog can build a partial card with no id; that case is not modelled.
- `Configuracion.ConfigPage.EditAnswer`: requires a card to be under edit, for the same reason as `EditQuestion`.
- `JuegoRapido.QuickGame.HandleRate`: each call sees the state left by the previous call. A second click handled before the page re-renders would read stale state; that is not modelled.
- The card component's reveal toggle, the statistics page (floating-point percentages), the cookie helpers and the home page: no logic beyond display.
- A card scheduler, a rating-to-lockout table and aggregate statistics: the code implements none of these.

## Findings

| source | as written | input that shows it | evidently intended | confidence | as-written member | corrected member |
|---|---|---|---|---|---|---|
| src/app/juego-rapido/page.tsx:22 | the index advances only while `currentCardIndex < mockFlashcards.length - 1`, so it stops at 3, and `isGameOver` (`=== length`, line 27) never holds | any four ratings from a fresh game (for example four `perfect`): the index is 3, the game goes on, and further ratings keep being appended to the last card | the index reaches `length` after the fourth rating, so the summary on lines 29-50 is shown | high (not executed) | `JuegoRapido.NeverGameOver` | `JuegoRapido.CorrectedGameOver` |
