/** The view model: one mutable field holding the current `UiState`, and one
    method per operation. Each state-changing method replaces that field with
    an updated copy and is proved to perform the transition of the same name
    in module GameSpec and to keep GameSpec.Invariant; NextRound, SaveGame
    and CheckEliminations leave the state unchanged. */
module ViewModel {
  import opened Kotlin
  import opened Models
  import GameSpec

  class GameViewModel {
    /** The state the screens observe. */
    var uiState: UiState

    constructor ()
      ensures uiState == DefaultUiState() && GameSpec.Invariant(uiState)
    {
      uiState := DefaultUiState();
    }

    /** Builds the roster "Joueur 1" .. "Joueur playersCount" and opens a game. */
    method StartGame(maxScore: i32, playersCount: i32)
      modifies this
      ensures uiState == GameSpec.StartGame(maxScore, playersCount)
      ensures GameSpec.Invariant(uiState)
    {
      var players: seq<Player> := [];
      var i := 1;
      while i <= playersCount
        invariant 1 <= i <= (if playersCount > 0 then playersCount + 1 else 1)
        invariant players == GameSpec.Roster(i - 1)
      {
        players := players + [NewPlayer(GameSpec.DefaultName(i))];
        i := i + 1;
      }
      uiState := DefaultUiState().(started := true, maxScore := maxScore, players := players);
      GameSpec.StartGameState(maxScore, playersCount);
      SaveGame();
    }

    method ResetGame()
      modifies this
      ensures uiState == GameSpec.ResetGame() && GameSpec.Invariant(uiState)
    {
      uiState := DefaultUiState();
    }

    method EditPlayerName(index: i32)
      requires 0 <= index < |uiState.players|
      modifies this
      ensures uiState == GameSpec.EditPlayerName(old(uiState), index)
      ensures GameSpec.Invariant(old(uiState)) ==> GameSpec.Invariant(uiState)
    {
      uiState := uiState.(showNameEditor := true, editingPlayerIndex := Some(index),
                          tempText := Some(uiState.players[index].name));
    }

    method EditScoreForPlayer(index: i32)
      requires 0 <= index < |uiState.players|
      modifies this
      ensures uiState == GameSpec.EditScoreForPlayer(old(uiState), index)
      ensures GameSpec.Invariant(old(uiState)) ==> GameSpec.Invariant(uiState)
    {
      uiState := uiState.(showScoreEditor := true, editingPlayerIndex := Some(index), tempText := Some("0"));
    }

    method UpdateTempText(t: string)
      modifies this
      ensures uiState == GameSpec.UpdateTempText(old(uiState), t)
      ensures GameSpec.Invariant(old(uiState)) ==> GameSpec.Invariant(uiState)
    {
      uiState := uiState.(tempText := Some(t));
    }

    method ConfirmNameEdit()
      requires GameSpec.IndexOk(uiState)
      modifies this
      ensures uiState == GameSpec.ConfirmNameEdit(old(uiState))
      ensures GameSpec.Invariant(old(uiState)) ==> GameSpec.Invariant(uiState)
    {
      var s := uiState;
      if s.editingPlayerIndex.None? { return; }
      var idx := s.editingPlayerIndex.value;
      if s.tempText.None? { return; }
      var name := s.tempText.value;
      var players := s.players;
      players := players[idx := players[idx].(name := name)];
      uiState := s.(players := players, showNameEditor := false, tempText := None);
      GameSpec.ConfirmNameEditState(s);
      SaveGame();
    }

    method ConfirmScoreEdit()
      requires GameSpec.IndexOk(uiState)
      modifies this
      ensures uiState == GameSpec.ConfirmScoreEdit(old(uiState))
      ensures GameSpec.Invariant(old(uiState)) ==> GameSpec.Invariant(uiState)
    {
      var s := uiState;
      if s.editingPlayerIndex.None? { return; }
      var idx := s.editingPlayerIndex.value;
      var add := GameSpec.ScoreDelta(s.tempText);
      var players := s.players;
      var p := players[idx];
      var newTotal := Wrap32(p.total + add);
      var newHistory := p.history;
      newHistory := newHistory + [add];
      players := players[idx := p.(total := newTotal, history := newHistory, eliminated := newTotal >= s.maxScore)];
      uiState := s.(players := players, showScoreEditor := false, tempText := None);
      if GameSpec.Invariant(s) {
        GameSpec.ConfirmScoreEditPreservesInvariant(s);
      }
      CheckEliminations();
      SaveGame();
    }

    method ToggleHistoryDialog(index: i32)
      modifies this
      ensures uiState == GameSpec.ToggleHistoryDialog(old(uiState), index)
      ensures GameSpec.Invariant(old(uiState)) ==> GameSpec.Invariant(uiState)
    {
      uiState := uiState.(showHistoryDialog := true, historyPlayerIndex := Some(index));
    }

    method DismissDialogs()
      modifies this
      ensures uiState == GameSpec.DismissDialogs(old(uiState))
      ensures GameSpec.Invariant(old(uiState)) ==> GameSpec.Invariant(uiState)
    {
      uiState := uiState.(showNameEditor := false, showScoreEditor := false,
                          showHistoryDialog := false, tempText := None);
    }

    /** Closing a round records nothing beyond the scores already entered. */
    method NextRound()
      ensures uiState == old(uiState)
    {
      SaveGame();
    }

    /** Persistence is not implemented: the launched coroutine does nothing. */
    method SaveGame()
      ensures uiState == old(uiState)
    {
    }

    /** Counts the players still in the game; a lone survivor is not recorded. */
    method CheckEliminations()
      ensures uiState == old(uiState)
    {
      var remaining := GameSpec.Remaining(uiState.players);
      if remaining == 1 {
        // the winner is left implicit in the state
      }
    }
  }
}
