/** A session as a sequence of user intents, each dispatched to the matching
    view-model operation, and what holds over whole sessions. */
module Session {
  import opened Kotlin
  import opened Models
  import opened GameSpec

  /** The calls the screens make on the view model. */
  datatype Intent =
    | Start(maxScore: i32, playersCount: i32)
    | Reset
    | EditName(index: i32)
    | EditScore(index: i32)
    | UpdateText(text: string)
    | ConfirmName
    | ConfirmScore
    | ToggleHistory(index: i32)
    | Dismiss
    | NextRound
    | SaveGame

  /** What the callers must guarantee: the edit targets are players that exist. */
  predicate Enabled(s: UiState, e: Intent) {
    match e
    case EditName(i) => 0 <= i < |s.players|
    case EditScore(i) => 0 <= i < |s.players|
    case ConfirmName => IndexOk(s)
    case ConfirmScore => IndexOk(s)
    case _ => true
  }

  function Apply(s: UiState, e: Intent): UiState
    requires Enabled(s, e)
  {
    match e
    case Start(m, n) => StartGame(m, n)
    case Reset => ResetGame()
    case EditName(i) => EditPlayerName(s, i)
    case EditScore(i) => EditScoreForPlayer(s, i)
    case UpdateText(t) => UpdateTempText(s, t)
    case ConfirmName => ConfirmNameEdit(s)
    case ConfirmScore => ConfirmScoreEdit(s)
    case ToggleHistory(i) => ToggleHistoryDialog(s, i)
    case Dismiss => DismissDialogs(s)
    case NextRound => s
    case SaveGame => s
  }

  /** Every operation keeps the invariant. In an invariant state the two
      confirmations are always enabled, so only the edit targets need checking. */
  lemma ApplyPreservesInvariant(s: UiState, e: Intent)
    requires Invariant(s) && Enabled(s, e)
    ensures Invariant(Apply(s, e))
  {
    match e
    case Start(m, n) => StartGameState(m, n);
    case ConfirmName =>
      if s.editingPlayerIndex.Some? && s.tempText.Some? {
        ConfirmNameEditState(s);
      }
    case ConfirmScore => ConfirmScoreEditPreservesInvariant(s);
    case _ =>
  }

  /** Apart from starting and resetting, no operation changes the limit, the
      number of players or whether a game is running, and every history only
      grows at its end. */
  lemma ApplyKeepsGame(s: UiState, e: Intent)
    requires Enabled(s, e) && !e.Start? && !e.Reset?
    ensures var r := Apply(s, e);
      && r.maxScore == s.maxScore && r.started == s.started && |r.players| == |s.players|
      && forall i :: 0 <= i < |s.players| ==> s.players[i].history <= r.players[i].history
  {
    if e.ConfirmScore? && s.editingPlayerIndex.Some? {
      ConfirmScoreEditState(s);
    } else if e.ConfirmName? && s.editingPlayerIndex.Some? && s.tempText.Some? {
      ConfirmNameEditState(s);
    }
  }

  /** The intents can be applied one after the other. */
  predicate Legal(s: UiState, es: seq<Intent>)
    decreases |es|
  {
    es == [] || (Enabled(s, es[0]) && Legal(Apply(s, es[0]), es[1..]))
  }

  function Run(s: UiState, es: seq<Intent>): UiState
    requires Legal(s, es)
    decreases |es|
  {
    if es == [] then s else Run(Apply(s, es[0]), es[1..])
  }

  /** Every state a session reaches from an invariant state, in particular
      from a new view model, satisfies the invariant. */
  lemma {:induction false} RunPreservesInvariant(s: UiState, es: seq<Intent>)
    requires Invariant(s) && Legal(s, es)
    ensures Invariant(Run(s, es))
    decreases |es|
  {
    if es != [] {
      ApplyPreservesInvariant(s, es[0]);
      RunPreservesInvariant(Apply(s, es[0]), es[1..]);
    }
  }

  /** Running two sessions back to back is running their concatenation. */
  lemma {:induction false} RunAppend(s: UiState, a: seq<Intent>, b: seq<Intent>)
    requires Legal(s, a) && Legal(Run(s, a), b)
    ensures Legal(s, a + b) && Run(s, a + b) == Run(Run(s, a), b)
    decreases |a|
  {
    if a == [] {
      assert a + b == b;
    } else {
      assert (a + b)[0] == a[0];
      assert (a + b)[1..] == a[1..] + b;
      RunAppend(Apply(s, a[0]), a[1..], b);
    }
  }

  /** Three intents in a row, each enabled where it is applied. */
  lemma RunThree(s: UiState, e1: Intent, e2: Intent, e3: Intent)
    requires Enabled(s, e1) && Enabled(Apply(s, e1), e2) && Enabled(Apply(Apply(s, e1), e2), e3)
    ensures Legal(s, [e1, e2, e3])
    ensures Run(s, [e1, e2, e3]) == Apply(Apply(Apply(s, e1), e2), e3)
  {
    var s1 := Apply(s, e1);
    var s2 := Apply(s1, e2);
    var s3 := Apply(s2, e3);
    assert [e3][1..] == [];
    assert Legal(s3, []) && Run(s3, []) == s3;
    assert Legal(s2, [e3]) && Run(s2, [e3]) == Run(s3, [e3][1..]) == s3;
    assert [e2, e3][1..] == [e3];
    assert Legal(s1, [e2, e3]) && Run(s1, [e2, e3]) == Run(s2, [e2, e3][1..]) == s3;
    assert [e1, e2, e3][1..] == [e2, e3];
    assert Run(s, [e1, e2, e3]) == Run(s1, [e1, e2, e3][1..]);
  }

  /** Whatever happened before, `resetGame` returns to the state of a new view model. */
  lemma ResetAfterAnything(s: UiState, es: seq<Intent>)
    requires Legal(s, es)
    ensures Legal(s, es + [Reset]) && Run(s, es + [Reset]) == DefaultUiState()
  {
    RunAppend(s, es, [Reset]);
  }

  /** Entering a score `d` for player `i` through the score dialog:
      open it, type `d`, press OK. */
  function ScoreEntry(i: i32, d: i32): seq<Intent> {
    [EditScore(i), UpdateText(IntToString(d)), ConfirmScore]
  }

  /** One score entry appends `d` to player `i`'s history, adds it to the
      running score and leaves every other player alone. */
  lemma ScoreEntryEffect(s: UiState, i: i32, d: i32)
    requires 0 <= i < |s.players|
    ensures Legal(s, ScoreEntry(i, d))
    ensures var r := Run(s, ScoreEntry(i, d));
      && |r.players| == |s.players| && r.maxScore == s.maxScore
      && r.players[i].history == s.players[i].history + [d]
      && r.players[i].total == Wrap32(s.players[i].total + d)
      && r.players[i].eliminated == (r.players[i].total >= s.maxScore)
      && (forall j :: 0 <= j < |s.players| && j != i ==> r.players[j] == s.players[j])
  {
    RunThree(s, EditScore(i), UpdateText(IntToString(d)), ConfirmScore);
    ScoreEntryConfirm(s, i, d);
  }

  lemma ScoreEntryConfirm(s: UiState, i: i32, d: i32)
    requires 0 <= i < |s.players|
    ensures var r := ConfirmScoreEdit(UpdateTempText(EditScoreForPlayer(s, i), IntToString(d)));
      && |r.players| == |s.players| && r.maxScore == s.maxScore
      && r.players[i].history == s.players[i].history + [d]
      && r.players[i].total == Wrap32(s.players[i].total + d)
      && r.players[i].eliminated == (r.players[i].total >= s.maxScore)
      && (forall j :: 0 <= j < |s.players| && j != i ==> r.players[j] == s.players[j])
  {
    ScoreDeltaOfNumber(d);
    TypedScoreConfirm(s, i, IntToString(d), d);
  }

  /** Confirming the typed text `t` whose value is `d`. */
  lemma TypedScoreConfirm(s: UiState, i: i32, t: string, d: i32)
    requires 0 <= i < |s.players| && ScoreDelta(Some(t)) == d
    ensures var r := ConfirmScoreEdit(UpdateTempText(EditScoreForPlayer(s, i), t));
      && |r.players| == |s.players| && r.maxScore == s.maxScore
      && r.players[i].history == s.players[i].history + [d]
      && r.players[i].total == Wrap32(s.players[i].total + d)
      && r.players[i].eliminated == (r.players[i].total >= s.maxScore)
      && (forall j :: 0 <= j < |s.players| && j != i ==> r.players[j] == s.players[j])
  {
    var s2 := UpdateTempText(EditScoreForPlayer(s, i), t);
    assert s2.players == s.players && s2.maxScore == s.maxScore;
    assert s2.editingPlayerIndex == Some(i) && s2.tempText == Some(t);
    var p := s.players[i];
    var total := Wrap32(p.total + d);
    var q := p.(total := total, history := p.history + [d], eliminated := total >= s.maxScore);
    assert ConfirmScoreEdit(s2).players == s.players[i := q];
  }

  function ScoreEntries(i: i32, ds: seq<i32>): seq<Intent>
    decreases |ds|
  {
    if ds == [] then [] else ScoreEntry(i, ds[0]) + ScoreEntries(i, ds[1..])
  }

  /** Player `i`'s scores `ds` were recorded between `s` and `r`: appended to
      the history, added to the running score, and no other player changed. */
  predicate Recorded(s: UiState, r: UiState, i: int, ds: seq<i32>)
    requires 0 <= i < |s.players|
  {
    && |r.players| == |s.players|
    && r.players[i].history == s.players[i].history + ds
    && r.players[i].total == Wrap32(s.players[i].total + Sum(ds))
    && (forall j :: 0 <= j < |s.players| && j != i ==> r.players[j] == s.players[j])
  }

  lemma RecordedCompose(s: UiState, m: UiState, r: UiState, i: int, ds: seq<i32>)
    requires 0 <= i < |s.players| && ds != []
    requires Recorded(s, m, i, [ds[0]]) && Recorded(m, r, i, ds[1..])
    ensures Recorded(s, r, i, ds)
  {
    var h: seq<i32>, t: int := s.players[i].history, s.players[i].total;
    assert r.players[i].history == h + ds by {
      assert h + ds == (h + [ds[0]]) + ds[1..];
    }
    assert r.players[i].total == Wrap32(t + Sum(ds)) by {
      assert m.players[i].total == Wrap32(t + ds[0]) by { assert Sum([ds[0]]) == ds[0]; }
      assert Sum(ds) == ds[0] + Sum(ds[1..]);
      WrapAdd(t + ds[0], Sum(ds[1..]));
    }
    assert forall j :: 0 <= j < |s.players| && j != i ==> r.players[j] == m.players[j] == s.players[j];
  }

  /** Entering the scores `ds` one after another for player `i` appends them,
      in order, to that player's history; the running score grows by their
      sum (as an `Int`) and the other players are untouched. */
  lemma {:induction false} ScoreEntriesEffect(s: UiState, i: i32, ds: seq<i32>)
    requires 0 <= i < |s.players|
    ensures Legal(s, ScoreEntries(i, ds))
    ensures Recorded(s, Run(s, ScoreEntries(i, ds)), i, ds)
    decreases |ds|
  {
    if ds == [] {
      assert Wrap32(s.players[i].total + 0) == s.players[i].total;
    } else {
      var a, b := ScoreEntry(i, ds[0]), ScoreEntries(i, ds[1..]);
      assert ScoreEntries(i, ds) == a + b;
      ScoreEntryEffect(s, i, ds[0]);
      var s1 := Run(s, a);
      assert Recorded(s, s1, i, [ds[0]]) by { assert Sum([ds[0]]) == ds[0]; }
      ScoreEntriesEffect(s1, i, ds[1..]);
      RunAppend(s, a, b);
      RecordedCompose(s, s1, Run(s1, b), i, ds);
    }
  }

  /** A new game of two players at the default limit: player 1 scores 50. */
  lemma FiftyPointsScenario()
    ensures var s := Run(StartGame(501, 2), [EditScore(0), UpdateText("50"), ConfirmScore]);
      && s.players[0].total == 50 && s.players[0].history == [50] && !s.players[0].eliminated
  {
    StartGameState(501, 2);
    var s := StartGame(501, 2);
    ScoreEntryEffect(s, 0, 50);
    assert IntToString(50) == "50" by {
      assert NatToDigits(50) == NatToDigits(5) + [DigitChar(0)];
    }
    assert ScoreEntry(0, 50) == [EditScore(0), UpdateText("50"), ConfirmScore];
  }

  /** A player at 490 who scores 20 more reaches 510 and is eliminated at the limit 501. */
  lemma ReachingLimitScenario(s: UiState, i: i32)
    requires 0 <= i < |s.players| && s.maxScore == 501 && s.players[i].total == 490
    ensures Legal(s, ScoreEntry(i, 20))
    ensures var r := Run(s, ScoreEntry(i, 20));
      i < |r.players| && r.players[i].total == 510 && r.players[i].eliminated
  {
    ScoreEntryEffect(s, i, 20);
  }

  /** Typing "abc" as a score enters 0: the history grows by a 0 and the running score is unchanged. */
  lemma UnparsableScoreScenario(s: UiState, i: i32)
    requires 0 <= i < |s.players|
    ensures Legal(s, [EditScore(i), UpdateText("abc"), ConfirmScore])
    ensures var r := Run(s, [EditScore(i), UpdateText("abc"), ConfirmScore]);
      i < |r.players| && r.players[i].history == s.players[i].history + [0] && r.players[i].total == s.players[i].total
  {
    var s2 := UpdateTempText(EditScoreForPlayer(s, i), "abc");
    ScoreDeltaMeaning("abc");
    ConfirmScoreEditState(s2);
    RunThree(s, EditScore(i), UpdateText("abc"), ConfirmScore);
  }
}
