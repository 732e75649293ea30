/** The score keeper's operations as pure transitions on `UiState`, one per
    state-changing function of the view model, and what each of them
    promises. The state-changing methods of class ViewModel.GameViewModel are
    proved to perform exactly these transitions. */
module GameSpec {
  import opened Kotlin
  import opened Models

  // ---------------------------------------------------------------------
  // The state invariant

  /** The mathematical sum of a score history. */
  function Sum(h: seq<i32>): int {
    if h == [] then 0 else h[0] + Sum(h[1..])
  }

  lemma {:induction false} SumAppend(h: seq<i32>, d: i32)
    ensures Sum(h + [d]) == Sum(h) + d
  {
    if h != [] {
      assert (h + [d])[1..] == h[1..] + [d];
      SumAppend(h[1..], d);
    }
  }

  /** The running score is the sum of the history, as a Kotlin `Int`
      (that is, what `history.sum()` would compute). */
  predicate Balanced(p: Player) {
    p.total == Wrap32(Sum(p.history))
  }

  /** A player who has never been scored is not eliminated; a scored player
      is eliminated exactly when the running score has reached the limit. */
  predicate EliminationAgrees(p: Player, maxScore: i32) {
    if p.history == [] then !p.eliminated else p.eliminated == (p.total >= maxScore)
  }

  /** The player being edited, if any, exists. */
  predicate IndexOk(s: UiState) {
    s.editingPlayerIndex.Some? ==> 0 <= s.editingPlayerIndex.value < |s.players|
  }

  predicate PlayersConsistent(players: seq<Player>, maxScore: i32) {
    forall i :: 0 <= i < |players| ==>
      Balanced(players[i]) && EliminationAgrees(players[i], maxScore)
  }

  /** What holds in every state the view model can reach. */
  predicate Invariant(s: UiState) {
    IndexOk(s) && PlayersConsistent(s.players, s.maxScore)
  }

  /** While the sum of a balanced player's history fits in an `Int`, the
      running score is that sum. */
  lemma BalancedTotalIsSum(p: Player)
    requires Balanced(p)
    requires INT_MIN <= Sum(p.history) <= INT_MAX
    ensures p.total == Sum(p.history)
  {
  }

  /** A fresh player has no score, no history, no avatar and is in the game;
      the default state has no game, the limit 501, no players, no dialog and
      no pending edit. Both are consistent. */
  lemma DefaultsConsistent(name: string, maxScore: i32)
    ensures var p := NewPlayer(name);
      && p.name == name && p.total == 0 && p.history == [] && !p.eliminated && p.avatarUri == None
      && Balanced(p) && EliminationAgrees(p, maxScore)
    ensures var s := DefaultUiState();
      && !s.started && s.maxScore == 501 && s.players == []
      && !s.showNameEditor && !s.showScoreEditor && !s.showHistoryDialog
      && s.editingPlayerIndex == None && s.historyPlayerIndex == None && s.tempText == None
      && Invariant(s)
  {
  }

  // ---------------------------------------------------------------------
  // startGame and resetGame

  /** The default name of the `i`-th player, counting from 1: "Joueur $i". */
  function DefaultName(i: int): string {
    "Joueur " + IntToString(i)
  }

  /** The players `startGame` creates for `count`: one per number in `1..count`. */
  function Roster(count: int): (r: seq<Player>)
    ensures |r| == if count > 0 then count else 0
    ensures forall i :: 0 <= i < |r| ==> r[i] == NewPlayer(DefaultName(i + 1))
    decreases count
  {
    if count <= 0 then [] else Roster(count - 1) + [NewPlayer(DefaultName(count))]
  }

  function StartGame(maxScore: i32, playersCount: i32): UiState {
    DefaultUiState().(started := true, maxScore := maxScore, players := Roster(playersCount))
  }

  /** `startGame` opens a game with the given limit and `max(playersCount, 0)`
      fresh players named "Joueur 1", "Joueur 2", ..., no dialog and no pending edit. */
  lemma StartGameState(maxScore: i32, playersCount: i32)
    ensures var s := StartGame(maxScore, playersCount);
      && s.started && s.maxScore == maxScore
      && |s.players| == (if playersCount > 0 then playersCount else 0)
      && (forall i :: 0 <= i < |s.players| ==>
            && s.players[i].name == DefaultName(i + 1)
            && s.players[i].total == 0 && s.players[i].history == []
            && !s.players[i].eliminated && s.players[i].avatarUri == None)
      && !s.showNameEditor && !s.showScoreEditor && !s.showHistoryDialog
      && s.editingPlayerIndex == None && s.historyPlayerIndex == None && s.tempText == None
      && Invariant(s)
  {
  }

  /** With a limit of 0 or less, the players of a new game have reached the
      limit but are not eliminated: elimination is only computed when a score
      is entered. */
  lemma UnscoredPlayersNotEliminated(maxScore: i32, playersCount: i32, i: int)
    requires maxScore <= 0 && 0 <= i < playersCount
    ensures var p := StartGame(maxScore, playersCount).players[i];
      p.total >= maxScore && !p.eliminated
  {
  }

  /** Different player numbers give different default names. */
  lemma DefaultNamesDistinct(i: i32, j: i32)
    requires i != j
    ensures DefaultName(i) != DefaultName(j)
  {
    var prefix := "Joueur ";
    if DefaultName(i) == DefaultName(j) {
      assert IntToString(i) == DefaultName(i)[|prefix|..];
      assert IntToString(j) == DefaultName(j)[|prefix|..];
      IntToStringInjective(i, j);
    }
  }

  /** The players of a new game have pairwise different names. */
  lemma StartGameNamesDistinct(maxScore: i32, playersCount: i32, i: int, j: int)
    requires 0 <= i < j < |StartGame(maxScore, playersCount).players|
    ensures StartGame(maxScore, playersCount).players[i].name
         != StartGame(maxScore, playersCount).players[j].name
  {
    DefaultNamesDistinct(i + 1, j + 1);
  }

  function ResetGame(): UiState {
    DefaultUiState()
  }

  /** `resetGame` forgets everything: no game, the limit 501, no players, no
      dialog and no pending edit, whatever the state was. */
  lemma ResetGameState()
    ensures var r := ResetGame();
      && !r.started && r.maxScore == 501 && r.players == []
      && !r.showNameEditor && !r.showScoreEditor && !r.showHistoryDialog
      && r.editingPlayerIndex == None && r.historyPlayerIndex == None && r.tempText == None
      && Invariant(r)
  {
  }

  // ---------------------------------------------------------------------
  // Opening the editors and typing

  function EditPlayerName(s: UiState, index: i32): UiState
    requires 0 <= index < |s.players|
  {
    s.(showNameEditor := true, editingPlayerIndex := Some(index), tempText := Some(s.players[index].name))
  }

  function EditScoreForPlayer(s: UiState, index: i32): UiState
    requires 0 <= index < |s.players|
  {
    s.(showScoreEditor := true, editingPlayerIndex := Some(index), tempText := Some("0"))
  }

  function UpdateTempText(s: UiState, t: string): UiState {
    s.(tempText := Some(t))
  }

  /** Opening the name editor targets player `index` and pre-fills its current
      name; nothing else changes (the other dialogs stay as they were). */
  lemma EditPlayerNameState(s: UiState, index: i32)
    requires 0 <= index < |s.players|
    ensures var r := EditPlayerName(s, index);
      && r.showNameEditor && r.editingPlayerIndex == Some(index)
      && r.tempText == Some(s.players[index].name)
      && r.players == s.players && r.maxScore == s.maxScore && r.started == s.started
      && r.showScoreEditor == s.showScoreEditor && r.showHistoryDialog == s.showHistoryDialog
      && r.historyPlayerIndex == s.historyPlayerIndex
  {
  }

  /** Opening the score editor targets player `index` and pre-fills "0";
      nothing else changes. */
  lemma EditScoreForPlayerState(s: UiState, index: i32)
    requires 0 <= index < |s.players|
    ensures var r := EditScoreForPlayer(s, index);
      && r.showScoreEditor && r.editingPlayerIndex == Some(index) && r.tempText == Some("0")
      && r.players == s.players && r.maxScore == s.maxScore && r.started == s.started
      && r.showNameEditor == s.showNameEditor && r.showHistoryDialog == s.showHistoryDialog
      && r.historyPlayerIndex == s.historyPlayerIndex
  {
  }

  /** The pending text can be set whether or not an editor is open; only the
      text changes. */
  lemma UpdateTempTextState(s: UiState, t: string)
    ensures var r := UpdateTempText(s, t);
      r.tempText == Some(t) && r == s.(tempText := r.tempText)
  {
  }

  // ---------------------------------------------------------------------
  // confirmNameEdit

  function ConfirmNameEdit(s: UiState): UiState
    requires IndexOk(s)
  {
    match (s.editingPlayerIndex, s.tempText)
    case (Some(idx), Some(name)) =>
      s.(players := s.players[idx := s.players[idx].(name := name)],
         showNameEditor := false, tempText := None)
    case _ => s
  }

  /** Without a target player or without pending text, confirming a name does nothing. */
  lemma ConfirmNameEditNoOp(s: UiState)
    requires IndexOk(s)
    requires s.editingPlayerIndex == None || s.tempText == None
    ensures ConfirmNameEdit(s) == s
  {
  }

  /** Confirming a name renames the target player to the pending text and
      changes nothing else of any player; the name editor closes and the
      pending text is cleared. */
  lemma ConfirmNameEditState(s: UiState)
    requires IndexOk(s) && s.editingPlayerIndex.Some? && s.tempText.Some?
    ensures var r := ConfirmNameEdit(s); var idx := s.editingPlayerIndex.value;
      && |r.players| == |s.players|
      && r.players[idx] == s.players[idx].(name := s.tempText.value)
      && (forall i :: 0 <= i < |s.players| && i != idx ==> r.players[i] == s.players[i])
      && r == s.(players := r.players, showNameEditor := false, tempText := None)
  {
  }

  /** Confirming a name does not check that the name editor is open: right
      after opening the score editor it renames the player to the pre-filled
      "0" and leaves the score editor open. */
  lemma ConfirmNameEditIgnoresDialogFlag(s: UiState, i: i32)
    requires 0 <= i < |s.players|
    ensures var r := ConfirmNameEdit(EditScoreForPlayer(s, i));
      i < |r.players| && r.players[i].name == "0" && r.showScoreEditor
  {
    ConfirmNameEditState(EditScoreForPlayer(s, i));
  }

  // ---------------------------------------------------------------------
  // confirmScoreEdit

  /** `(tempText ?: "0").toIntOrNull() ?: 0`. */
  function ScoreDelta(tempText: Option<string>): i32 {
    ParseInt(tempText.GetOr("0")).GetOr(0)
  }

  /** The score entered is the value of the pending text when that is a
      numeral fitting in an `Int`; anything else (no text, "abc", "", "1.5",
      an overflowing number) counts as 0. */
  lemma ScoreDeltaMeaning(t: string)
    ensures IsNumeral(t) && INT_MIN <= NumeralValue(t) <= INT_MAX ==>
      ScoreDelta(Some(t)) == NumeralValue(t)
    ensures !(IsNumeral(t) && INT_MIN <= NumeralValue(t) <= INT_MAX) ==>
      ScoreDelta(Some(t)) == 0
    ensures ScoreDelta(None) == 0 && ScoreDelta(Some("0")) == 0 && ScoreDelta(Some("abc")) == 0
  {
    assert !IsNumeral("abc") by { assert !IsDigit("abc"[0]); }
    assert IsNumeral("0") && NumeralValue("0") == 0 by {
      assert Unsigned("0") == "0";
      assert "0"[..0] == [];
    }
  }

  /** Typing the decimal form of any `Int` enters exactly that score. */
  lemma ScoreDeltaOfNumber(d: i32)
    ensures ScoreDelta(Some(IntToString(d))) == d
  {
    ParseIntToString(d);
  }

  function ConfirmScoreEdit(s: UiState): UiState
    requires IndexOk(s)
  {
    match s.editingPlayerIndex
    case None => s
    case Some(idx) =>
      var add := ScoreDelta(s.tempText);
      var p := s.players[idx];
      var newTotal := Wrap32(p.total + add);
      s.(players := s.players[idx := p.(total := newTotal, history := p.history + [add],
                                       eliminated := newTotal >= s.maxScore)],
         showScoreEditor := false, tempText := None)
  }

  /** Without a target player, confirming a score does nothing. */
  lemma ConfirmScoreEditNoOp(s: UiState)
    requires s.editingPlayerIndex == None
    ensures ConfirmScoreEdit(s) == s
  {
  }

  /** Confirming a score appends the entered score to the target player's
      history, adds it to the running score (with `Int` wrap-around) and
      recomputes elimination against the limit; no other player and no other
      field of the target changes; the score editor closes and the pending
      text is cleared. */
  lemma ConfirmScoreEditState(s: UiState)
    requires IndexOk(s) && s.editingPlayerIndex.Some?
    ensures var r := ConfirmScoreEdit(s); var idx := s.editingPlayerIndex.value;
      var d := ScoreDelta(s.tempText); var p := s.players[idx]; var q := r.players[idx];
      && |r.players| == |s.players|
      && q.history == p.history + [d]
      && q.total == Wrap32(p.total + d)
      && q.eliminated == (q.total >= s.maxScore)
      && q.name == p.name && q.avatarUri == p.avatarUri
      && (forall i :: 0 <= i < |s.players| && i != idx ==> r.players[i] == s.players[i])
      && r == s.(players := r.players, showScoreEditor := false, tempText := None)
  {
  }

  /** While the new running score fits in an `Int`, it is the old one plus the entry. */
  lemma ConfirmScoreEditAdds(s: UiState)
    requires IndexOk(s) && s.editingPlayerIndex.Some?
    requires var p := s.players[s.editingPlayerIndex.value];
      INT_MIN <= p.total + ScoreDelta(s.tempText) <= INT_MAX
    ensures var idx := s.editingPlayerIndex.value;
      ConfirmScoreEdit(s).players[idx].total == s.players[idx].total + ScoreDelta(s.tempText)
  {
  }

  /** Confirming a score does not check that the score editor is open: right
      after opening the name editor it enters the pre-filled name as a score
      (0 unless the name is a numeral, so 0 for every default name) and leaves
      the name editor open. */
  lemma ConfirmScoreEditIgnoresDialogFlag(s: UiState, i: i32)
    requires 0 <= i < |s.players|
    ensures var r := ConfirmScoreEdit(EditPlayerName(s, i));
      && i < |r.players| && r.showNameEditor
      && r.players[i].history == s.players[i].history + [ScoreDelta(Some(s.players[i].name))]
      && (!IsNumeral(s.players[i].name) ==> r.players[i].history == s.players[i].history + [0])
  {
    ConfirmScoreEditState(EditPlayerName(s, i));
    ScoreDeltaMeaning(s.players[i].name);
  }

  /** Confirming a score keeps every running score equal to the sum of its
      history and every elimination flag in line with the limit. */
  lemma ConfirmScoreEditPreservesInvariant(s: UiState)
    requires Invariant(s)
    ensures Invariant(ConfirmScoreEdit(s))
  {
    if s.editingPlayerIndex.Some? {
      var idx := s.editingPlayerIndex.value;
      var p := s.players[idx];
      var d := ScoreDelta(s.tempText);
      var r := ConfirmScoreEdit(s);
      SumAppend(p.history, d);
      WrapAdd(Sum(p.history), d);
      assert Balanced(r.players[idx]);
      assert EliminationAgrees(r.players[idx], r.maxScore);
    }
  }

  /** Elimination is not permanent: a negative entry that brings an eliminated
      player back under the limit clears the flag. */
  lemma EliminationNotSticky(s: UiState)
    requires IndexOk(s) && s.editingPlayerIndex.Some?
    requires var p := s.players[s.editingPlayerIndex.value];
      p.eliminated && INT_MIN <= p.total + ScoreDelta(s.tempText) < s.maxScore
    ensures !ConfirmScoreEdit(s).players[s.editingPlayerIndex.value].eliminated
  {
  }

  /** A 32-bit overflow clears elimination too: a player at the largest `Int`
      who is given one more point wraps to the smallest `Int`. */
  lemma OverflowClearsElimination(s: UiState)
    requires IndexOk(s) && s.editingPlayerIndex.Some? && s.tempText == Some("1")
    requires s.players[s.editingPlayerIndex.value].total == INT_MAX
    requires s.maxScore > INT_MIN
    ensures var q := ConfirmScoreEdit(s).players[s.editingPlayerIndex.value];
      q.total == INT_MIN && !q.eliminated
  {
    ScoreDeltaOfNumber(1);
    assert IntToString(1) == "1";
  }

  // ---------------------------------------------------------------------
  // The history dialog, dismissing dialogs, and the winner count

  function ToggleHistoryDialog(s: UiState, index: i32): UiState {
    s.(showHistoryDialog := true, historyPlayerIndex := Some(index))
  }

  /** Opening the history shows it for `index` and leaves every other field,
      including the other dialogs' flags, as it was. */
  lemma ToggleHistoryDialogState(s: UiState, index: i32)
    ensures var r := ToggleHistoryDialog(s, index);
      && r.showHistoryDialog && r.historyPlayerIndex == Some(index)
      && r == s.(showHistoryDialog := r.showHistoryDialog, historyPlayerIndex := r.historyPlayerIndex)
  {
  }

  function DismissDialogs(s: UiState): UiState {
    s.(showNameEditor := false, showScoreEditor := false, showHistoryDialog := false, tempText := None)
  }

  /** Dismissing closes every dialog and drops the pending text but keeps the
      players, the limit and both remembered indices. */
  lemma DismissDialogsState(s: UiState)
    ensures var r := DismissDialogs(s);
      && !r.showNameEditor && !r.showScoreEditor && !r.showHistoryDialog && r.tempText == None
      && r.players == s.players && r.maxScore == s.maxScore && r.started == s.started
      && r.editingPlayerIndex == s.editingPlayerIndex
      && r.historyPlayerIndex == s.historyPlayerIndex
  {
  }

  lemma DismissDialogsIdempotent(s: UiState)
    ensures DismissDialogs(DismissDialogs(s)) == DismissDialogs(s)
  {
  }

  /** The number of players still in the game (`players.count { !it.eliminated }`). */
  function Remaining(players: seq<Player>): (r: nat)
    ensures r <= |players|
    ensures r == 0 <==> forall i :: 0 <= i < |players| ==> players[i].eliminated
    ensures r == |players| <==> forall i :: 0 <= i < |players| ==> !players[i].eliminated
  {
    if players == [] then 0
    else Remaining(players[1..]) + (if players[0].eliminated then 0 else 1)
  }
}
