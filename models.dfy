/** The two immutable records of the score keeper. Kotlin `data class`es
    become datatypes; their `copy(...)` calls become Dafny's update syntax. */
module Models {
  import opened Kotlin

  /** An avatar image reference. The state machine only stores it; no operation sets it. */
  datatype Uri = Uri(text: string)

  /** One player: a display name, the running score, the per-round score
      entries in order, and whether the running score has reached the limit. */
  datatype Player = Player(
    name: string,
    total: i32,
    history: seq<i32>,
    eliminated: bool,
    avatarUri: Option<Uri>)

  /** The whole screen state: whether a game is running, the score limit, the
      players, which dialog is open, and the pending edit. */
  datatype UiState = UiState(
    started: bool,
    maxScore: i32,
    players: seq<Player>,
    showNameEditor: bool,
    showScoreEditor: bool,
    showHistoryDialog: bool,
    editingPlayerIndex: Option<i32>,
    historyPlayerIndex: Option<i32>,
    tempText: Option<string>)

  const DEFAULT_MAX_SCORE: i32 := 501

  /** `Player(name = name)`: every other field takes its default. */
  function NewPlayer(name: string): Player {
    Player(name, 0, [], false, None)
  }

  /** `UiState()`: every field takes its default. */
  function DefaultUiState(): UiState {
    UiState(false, DEFAULT_MAX_SCORE, [], false, false, false, None, None, None)
  }
}
