# Rami score keeper: the game state machine

This project models the score-keeping core of the RAMI-SCORE Android app. The
`GameViewModel` holds one `UiState` and exposes these operations:

- starting and resetting a game;
- opening the name editor, the score editor and the history dialog;
- typing into the pending text field;
- confirming a name or a score;
- dismissing the dialogs;
- closing a round.

Confirming a score parses the pending text with Kotlin's `toIntOrNull`. It then
appends the entry to the player's history, adds it to the running score, and
recomputes whether the player has reached the score limit (`maxScore`).

The modules:

- `Kotlin` (kotlin.dfy) covers the Kotlin features the app relies on:
  - nullable values, as `Option`;
  - the 32-bit `Int`, as the subset type `i32`, with wrap-around addition as `Wrap32`;
  - `Int.toString()`, used by the "Joueur $i" template;
  - `String.toIntOrNull()`, as `ParseInt`, proved equal to a separate grammar
    of decimal numerals and proved to read back everything `toString` writes.
- `Models` (models.dfy) holds the `Player` and `UiState` data classes as
  datatypes, with their default values.
- `GameSpec` (game_spec.dfy) has one pure transition per operation and the
  lemmas stating what each does. It also defines the invariant every
  reachable state keeps:
  - the player being edited exists;
  - every running score equals the sum of its history, as a Kotlin `Int`;
  - a scored player is eliminated exactly when its score has reached the
    limit, and an unscored player is not eliminated.
- `Session` (session.dfy) treats a session as a sequence of user intents. It
  proves that the invariant holds over whole sessions, that a reset after
  anything gives the default state, and that score entries accumulate in
  order. It also proves three concrete scenarios: a first score of "50" in a
  new two-player game, 490 + 20 reaching the limit 501, and "abc" entering 0.
- `ViewModel` (game_view_model.dfy) has the class `GameViewModel`. Its one
  mutable field `uiState` models the `_uiState` flow. Each method does what
  the Kotlin method does, step by step. Each state-changing method is proved
  to perform the `GameSpec` transition of the same name and to keep the
  invariant. `NextRound`, `SaveGame` and `CheckEliminations` are proved to
  leave the state unchanged.

Several properties one might expect of a Rami score keeper do not hold in this
code. The model follows the code:

- One might expect elimination to last until a reset. It does not: every
  score entry recomputes `eliminated = total >= maxScore`, so a negative entry,
  or a 32-bit overflow, can bring a player back (`EliminationNotSticky`,
  `OverflowClearsElimination`).
- One might expect every player to be eliminated exactly when the total has
  reached the limit. That holds only for players with at least one score
  entry. With a limit of 0 or less, a new player's total of 0 has reached the
  limit, but the player is not eliminated (`UnscoredPlayersNotEliminated`).
- One might expect confirming a name or a score to need its own editor to be
  open, and to do nothing otherwise. Both confirmations test only
  `editingPlayerIndex`, and the name confirmation also tests `tempText`; they
  never look at the dialog flags. So confirming a name right after opening the
  score editor renames the player to "0" (`ConfirmNameEditIgnoresDialogFlag`).
  Confirming a score right after opening the name editor enters the name as
  a score, which is 0 for a default name (`ConfirmScoreEditIgnoresDialogFlag`).
- `updateTempText` sets the pending text even when no editor is open
  (`UpdateTempTextState`).
- One might expect dismissing to clear every edit field. `dismissDialogs`
  keeps `editingPlayerIndex` and `historyPlayerIndex`.
- One might expect at most one dialog to be open at a time. `toggleHistoryDialog`
  does not close the other dialogs, so this is not an invariant.
- Players are named "Joueur i" in French, counting from 1.
- `startGame` does not check the player count: a count of 0 or less gives an
  empty roster. So "players non-empty exactly when a game is started" is not
  enforced either.
- Out-of-range indices are not no-ops. `editPlayerName`, `confirmNameEdit` and
  `confirmScoreEdit` index the player list directly, so a valid index is a
  precondition there (`GameSpec.IndexOk`). `editScoreForPlayer` stores its
  index unchecked, and `confirmScoreEdit` later uses it, so its index is a
  precondition too.
- `toggleHistoryDialog` never indexes the list in this code, so its index is
  stored unchecked, as in the source.

## Model

| member | source | states |
|---|---|---|
| Kotlin.Wrap32 | app/src/main/java/com/example/ramiscore/GameViewModel.kt:65 | the Kotlin `Int` sum is congruent to the true sum modulo 2^32 and equals it whenever the true sum fits in 32 bits |
| Kotlin.IntToString | app/src/main/java/com/example/ramiscore/GameViewModel.kt:28 | `Int.toString()` as used by the "Joueur $i" template; its contract is carried by `ParseIntToString` (read back by `toIntOrNull`) and `IntToStringInjective` |
| Kotlin.WrapAdd | app/src/main/java/com/example/ramiscore/GameViewModel.kt:65 | wrapping after each addition gives the same `Int` as wrapping once at the end |
| Kotlin.ParseInt | app/src/main/java/com/example/ramiscore/GameViewModel.kt:62 | `toIntOrNull` succeeds exactly on an optional sign followed by at least one digit whose value fits in an `Int`, and then returns that value |
| Kotlin.NatToDigitsCorrect | app/src/main/java/com/example/ramiscore/GameViewModel.kt:28 | the decimal form of a number is a non-empty digit string whose value is that number |
| Kotlin.ParseIntToString | app/src/main/java/com/example/ramiscore/GameViewModel.kt:62 | `toIntOrNull` reads back every `Int` that `toString` writes |
| Kotlin.IntToStringInjective | app/src/main/java/com/example/ramiscore/GameViewModel.kt:28 | different `Int`s have different decimal forms |
| GameSpec.BalancedTotalIsSum | app/src/main/java/com/example/ramiscore/GameViewModel.kt:65-68 | while the history's sum fits in an `Int`, a consistent player's running score is exactly that sum |
| GameSpec.DefaultsConsistent | app/src/main/java/com/example/ramiscore/models.kt:5-23 | `Player(name)` has total 0, empty history, no elimination and no avatar; `UiState()` is not started, has limit 501, no players, all dialog flags false and null indices and text; both satisfy the invariant |
| Models.NewPlayer | app/src/main/java/com/example/ramiscore/models.kt:5-11 | `Player(name)` with every other field at its default; the defaults are stated by `DefaultsConsistent` |
| Models.DefaultUiState | app/src/main/java/com/example/ramiscore/models.kt:13-23 | `UiState()` with every field at its default; the defaults are stated by `DefaultsConsistent` |
| GameSpec.Roster | app/src/main/java/com/example/ramiscore/GameViewModel.kt:27-28 | the roster for `n` has `max(n, 0)` players, the i-th a fresh player named "Joueur i" counting from 1 |
| GameSpec.StartGame | app/src/main/java/com/example/ramiscore/GameViewModel.kt:26-29 | the `startGame` transition; what it yields is stated by `StartGameState` and `UnscoredPlayersNotEliminated` |
| GameSpec.StartGameState | app/src/main/java/com/example/ramiscore/GameViewModel.kt:26-29 | `startGame(m, n)` gives a started game with limit `m`, `max(n, 0)` fresh players named "Joueur 1".., no dialog, null indices and text, and the invariant |
| GameSpec.UnscoredPlayersNotEliminated | app/src/main/java/com/example/ramiscore/GameViewModel.kt:28-29 | with a limit of 0 or less, every player of a new game has total 0 >= limit but is not eliminated |
| GameSpec.DefaultNamesDistinct | app/src/main/java/com/example/ramiscore/GameViewModel.kt:28 | different player numbers give different default names |
| GameSpec.StartGameNamesDistinct | app/src/main/java/com/example/ramiscore/GameViewModel.kt:28 | the players of a new game have pairwise different names |
| GameSpec.ResetGame | app/src/main/java/com/example/ramiscore/GameViewModel.kt:33-35 | the `resetGame` transition; what it yields is stated by `ResetGameState` and `Session.ResetAfterAnything` |
| GameSpec.ResetGameState | app/src/main/java/com/example/ramiscore/GameViewModel.kt:33-35 | `resetGame` from any state gives every default field value and the invariant |
| GameSpec.EditPlayerName | app/src/main/java/com/example/ramiscore/GameViewModel.kt:37-39 | the `editPlayerName` transition; stated by `EditPlayerNameState` |
| GameSpec.EditScoreForPlayer | app/src/main/java/com/example/ramiscore/GameViewModel.kt:41-43 | the `editScoreForPlayer` transition; stated by `EditScoreForPlayerState` |
| GameSpec.UpdateTempText | app/src/main/java/com/example/ramiscore/GameViewModel.kt:45-47 | the `updateTempText` transition; stated by `UpdateTempTextState` |
| GameSpec.EditPlayerNameState | app/src/main/java/com/example/ramiscore/GameViewModel.kt:37-39 | opens the name editor on the player, pre-fills its current name, and leaves the players, the limit and the other dialogs unchanged |
| GameSpec.EditScoreForPlayerState | app/src/main/java/com/example/ramiscore/GameViewModel.kt:41-43 | opens the score editor on the player, pre-fills "0", and leaves the players, the limit and the other dialogs unchanged |
| GameSpec.UpdateTempTextState | app/src/main/java/com/example/ramiscore/GameViewModel.kt:45-47 | sets the pending text to `t`, verbatim, whether or not an editor is open, and changes no other field |
| GameSpec.ConfirmNameEdit | app/src/main/java/com/example/ramiscore/GameViewModel.kt:49-57 | the `confirmNameEdit` transition; stated by `ConfirmNameEditNoOp`, `ConfirmNameEditState` and `ConfirmNameEditIgnoresDialogFlag` |
| GameSpec.ConfirmNameEditNoOp | app/src/main/java/com/example/ramiscore/GameViewModel.kt:50-52 | with no target player or no pending text, confirming a name changes nothing |
| GameSpec.ConfirmNameEditState | app/src/main/java/com/example/ramiscore/GameViewModel.kt:53-55 | only the target player's name changes, to the pending text; the name editor closes, the text is cleared, every other field is kept |
| GameSpec.ConfirmNameEditIgnoresDialogFlag | app/src/main/java/com/example/ramiscore/GameViewModel.kt:51-55 | the name editor need not be open: right after opening the score editor, confirming a name renames the player to "0" and leaves the score editor open |
| GameSpec.ScoreDelta | app/src/main/java/com/example/ramiscore/GameViewModel.kt:62 | `(tempText ?: "0").toIntOrNull() ?: 0`; stated by `ScoreDeltaMeaning` and `ScoreDeltaOfNumber` |
| GameSpec.ConfirmScoreEdit | app/src/main/java/com/example/ramiscore/GameViewModel.kt:59-72 | the `confirmScoreEdit` transition; stated by `ConfirmScoreEditNoOp`, `ConfirmScoreEditState`, `ConfirmScoreEditAdds`, `ConfirmScoreEditIgnoresDialogFlag` and `ConfirmScoreEditPreservesInvariant` |
| GameSpec.ScoreDeltaMeaning | app/src/main/java/com/example/ramiscore/GameViewModel.kt:62 | the entry is the pending text's value when it is a numeral that fits in an `Int`, and 0 otherwise, including null text, "0" and "abc" |
| GameSpec.ScoreDeltaOfNumber | app/src/main/java/com/example/ramiscore/GameViewModel.kt:62 | typing the decimal form of any `Int` enters exactly that score |
| GameSpec.ConfirmScoreEditNoOp | app/src/main/java/com/example/ramiscore/GameViewModel.kt:61 | with no target player, confirming a score changes nothing |
| GameSpec.ConfirmScoreEditState | app/src/main/java/com/example/ramiscore/GameViewModel.kt:63-69 | the history gains the entry at its end, the total becomes `Wrap32(total + entry)`, and `eliminated` becomes `total' >= maxScore`; the name, the avatar and the other players are kept; the score editor closes and the text clears; nothing else changes |
| GameSpec.ConfirmScoreEditAdds | app/src/main/java/com/example/ramiscore/GameViewModel.kt:65 | without overflow the new total is the old total plus the entry |
| GameSpec.ConfirmScoreEditIgnoresDialogFlag | app/src/main/java/com/example/ramiscore/GameViewModel.kt:61-69 | the score editor need not be open: right after opening the name editor, confirming a score appends the name's value as a score (0 for a non-numeral name) and leaves the name editor open |
| GameSpec.ConfirmScoreEditPreservesInvariant | app/src/main/java/com/example/ramiscore/GameViewModel.kt:65-68 | confirming a score keeps every total equal to its history's sum as an `Int` and every elimination flag in line with the limit |
| GameSpec.EliminationNotSticky | app/src/main/java/com/example/ramiscore/GameViewModel.kt:68 | a negative entry that brings an eliminated player under the limit clears the flag |
| GameSpec.OverflowClearsElimination | app/src/main/java/com/example/ramiscore/GameViewModel.kt:65-68 | one more point for a player at the largest `Int` wraps the total to the smallest `Int` and clears elimination |
| GameSpec.ToggleHistoryDialog | app/src/main/java/com/example/ramiscore/GameViewModel.kt:74-76 | the `toggleHistoryDialog` transition; stated by `ToggleHistoryDialogState` |
| GameSpec.ToggleHistoryDialogState | app/src/main/java/com/example/ramiscore/GameViewModel.kt:74-76 | shows the history for the index and changes no other field, not even the other dialog flags |
| GameSpec.DismissDialogs | app/src/main/java/com/example/ramiscore/GameViewModel.kt:78-80 | the `dismissDialogs` transition; stated by `DismissDialogsState` and `DismissDialogsIdempotent` |
| GameSpec.DismissDialogsState | app/src/main/java/com/example/ramiscore/GameViewModel.kt:78-80 | all three dialog flags are cleared and the text is null; the players, the limit, `started` and both indices are kept |
| GameSpec.DismissDialogsIdempotent | app/src/main/java/com/example/ramiscore/GameViewModel.kt:79 | dismissing twice is the same as dismissing once |
| GameSpec.Remaining | app/src/main/java/com/example/ramiscore/GameViewModel.kt:99 | the count of players in the game is at most the number of players; it is 0 exactly when all are eliminated, and all of them exactly when none is |
| Session.Apply | app/src/main/java/com/example/ramiscore/GameViewModel.kt:26-93 | dispatches each intent to its transition; `nextRound` and `saveGame` leave the state as it is. Stated by `ApplyPreservesInvariant` and `ApplyKeepsGame` |
| Session.ApplyPreservesInvariant | app/src/main/java/com/example/ramiscore/GameViewModel.kt:26-85 | every operation, called with existing edit targets, keeps the invariant |
| Session.ApplyKeepsGame | app/src/main/java/com/example/ramiscore/GameViewModel.kt:37-85 | apart from start and reset, no operation changes the limit, `started` or the number of players, and histories only grow at their end |
| Session.RunPreservesInvariant | app/src/main/java/com/example/ramiscore/GameViewModel.kt:23-85 | every state a session reaches from an invariant state satisfies the invariant |
| Session.ResetAfterAnything | app/src/main/java/com/example/ramiscore/GameViewModel.kt:33-35 | after any session, a reset yields exactly the default state |
| Session.ScoreEntryEffect | app/src/main/java/com/example/ramiscore/GameViewModel.kt:41-72 | open the score editor, type `d` and confirm: `d` is appended to the history, the total becomes `Wrap32(total + d)`, elimination is recomputed, and the others are untouched |
| Session.ScoreEntriesEffect | app/src/main/java/com/example/ramiscore/GameViewModel.kt:59-72 | entering `d1..dn` appends them in order to the history and adds their sum to the total (as an `Int`); the others are untouched |
| Session.FiftyPointsScenario | app/src/main/java/com/example/ramiscore/GameViewModel.kt:26-72 | `startGame(501, 2)`, then enter "50" for the first player: total 50, history [50], not eliminated |
| Session.ReachingLimitScenario | app/src/main/java/com/example/ramiscore/GameViewModel.kt:65-68 | at limit 501, a player at 490 who scores 20 reaches 510 and is eliminated |
| Session.UnparsableScoreScenario | app/src/main/java/com/example/ramiscore/GameViewModel.kt:62 | typing "abc" appends a 0 and leaves the total unchanged |
| ViewModel.GameViewModel.constructor | app/src/main/java/com/example/ramiscore/GameViewModel.kt:23 | a new view model holds the default state, which satisfies the invariant |
| ViewModel.GameViewModel.StartGame | app/src/main/java/com/example/ramiscore/GameViewModel.kt:26-31 | the loop builds the roster "Joueur 1".."Joueur n"; the new state is `GameSpec.StartGame(m, n)` and satisfies the invariant |
| ViewModel.GameViewModel.ResetGame | app/src/main/java/com/example/ramiscore/GameViewModel.kt:33-35 | the new state is the default state |
| ViewModel.GameViewModel.EditPlayerName | app/src/main/java/com/example/ramiscore/GameViewModel.kt:37-39 | performs `GameSpec.EditPlayerName` and keeps the invariant |
| ViewModel.GameViewModel.EditScoreForPlayer | app/src/main/java/com/example/ramiscore/GameViewModel.kt:41-43 | performs `GameSpec.EditScoreForPlayer` and keeps the invariant |
| ViewModel.GameViewModel.UpdateTempText | app/src/main/java/com/example/ramiscore/GameViewModel.kt:45-47 | replaces only the pending text, verbatim, and keeps the invariant |
| ViewModel.GameViewModel.ConfirmNameEdit | app/src/main/java/com/example/ramiscore/GameViewModel.kt:49-57 | the early returns, then the rename of the copied list: performs `GameSpec.ConfirmNameEdit` and keeps the invariant |
| ViewModel.GameViewModel.ConfirmScoreEdit | app/src/main/java/com/example/ramiscore/GameViewModel.kt:59-72 | the early return, parse, wrapping add, history append and elimination: performs `GameSpec.ConfirmScoreEdit` and keeps the invariant |
| ViewModel.GameViewModel.ToggleHistoryDialog | app/src/main/java/com/example/ramiscore/GameViewModel.kt:74-76 | performs `GameSpec.ToggleHistoryDialog` and keeps the invariant |
| ViewModel.GameViewModel.DismissDialogs | app/src/main/java/com/example/ramiscore/GameViewModel.kt:78-80 | performs `GameSpec.DismissDialogs` and keeps the invariant |
| ViewModel.GameViewModel.NextRound | app/src/main/java/com/example/ramiscore/GameViewModel.kt:82-85 | leaves the state unchanged |
| ViewModel.GameViewModel.SaveGame | app/src/main/java/com/example/ramiscore/GameViewModel.kt:87-93 | leaves the state unchanged |
| ViewModel.GameViewModel.CheckEliminations | app/src/main/java/com/example/ramiscore/GameViewModel.kt:97-103 | counts the remaining players and leaves the state unchanged |

## Left out

- `getSerializedState` hands the state to the Gson library, which is not part of this model. No deserializer exists in the code, so there is no round trip to state.
- `saveGame` launches an empty coroutine. It is modelled as a method that does nothing; the coroutine scheduling is not modelled.
- `pickAvatar` (an empty stub) and `getBitmapFromUri` (Android image decoding) are not modelled. `avatarUri` is kept as an opaque optional reference that no operation sets.
- The `StateFlow` that publishes `_uiState` to the screens is modelled as a plain mutable field. Observers and recomposition are not modelled.
- Kotlin.ParseInt: accepts only the ASCII digits '0'..'9'. Kotlin's `toIntOrNull` also accepts other Unicode decimal digits.
- The screens (MainActivity.kt), including the setup screen's clamping of the player count to 2..4 and its default limit of 501, are not part of this model. Any `Int` count and limit are accepted, as in the view model.
- The reported winner: `checkEliminations` counts the players still in the game but stores nothing, so the model has no winner state.
