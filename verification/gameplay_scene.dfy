/**
 * Level and puzzle progression of game/scenes/gameplay_scene.py: which
 * level and which of its puzzles is showing, whether the "next" button is
 * up, and whether the current puzzle is the last of its level.
 *
 * The level table is given as its puzzle counts per level. The puzzles
 * themselves (polyhedra), the progress dots, the event queue and the
 * console are outside the model: what the scene asks of them is recorded
 * in a ghost log of effects, and whether the current puzzle is solved is a
 * parameter.
 */
module Gameplay {
  /** Puzzles per level in game/scenes/gameplay_levels.py. */
  const Levels: seq<nat> := [2, 1, 1, 1, 1]

  /** The scene's progression fields; `puzzleCount` is `len(self.puzzles)`. */
  datatype SceneState = SceneState(
    level: nat,
    puzzleIndex: nat,
    puzzleCount: nat,
    showNextButton: bool,
    isLastPuzzleOnLevel: bool)

  /** What the scene asks of the objects around it. */
  datatype Effect =
    | DestroyPuzzle(index: nat)
    | LoadLevel(level: nat)
    | ResetProgress
    | FadeIn
    | FadeOut
    | IntroducePuzzle(index: nat)
    | CompletePuzzle(index: nat)
    | ExplodePuzzle(index: nat)
    | EmitNextPuzzle
    | GameWon
    | ForwardToPuzzle(index: nat)
    | ForwardToNextButton

  datatype Event = PuzzleSolved | NextPuzzle | FadedOut | NextLevel | OtherEvent

  predicate AllLevelsNonEmpty(levels: seq<nat>) {
    forall l :: 0 <= l < |levels| ==> levels[l] >= 1
  }

  /** The indices point at an existing level and at one of its loaded puzzles. */
  predicate InBounds(levels: seq<nat>, s: SceneState) {
    s.level < |levels| && s.puzzleCount == levels[s.level] && s.puzzleIndex < s.puzzleCount
  }

  /** The flag is true exactly on the level's last puzzle. */
  predicate LastFlagCorrect(s: SceneState) {
    s.isLastPuzzleOnLevel <==> s.puzzleIndex == s.puzzleCount - 1
  }

  /** The state `__init__` leaves: level 0, puzzle 0, its puzzles loaded, button down, flag false. */
  function InitialState(levels: seq<nat>): (s: SceneState)
    requires |levels| >= 1
    ensures InBounds(levels, s) <==> levels[0] >= 1
    ensures s.level == 0 && s.puzzleIndex == 0 && !s.showNextButton && !s.isLastPuzzleOnLevel
  {
    SceneState(0, 0, levels[0], false, false)
  }

  /** `advance`: the next puzzle of the level, else the first of the next level, else nothing moves. */
  function AdvanceState(levels: seq<nat>, s: SceneState): (t: SceneState)
    requires s.level < |levels|
    ensures !t.showNextButton
  {
    var s' := s.(showNextButton := false);
    if s.puzzleIndex < s.puzzleCount - 1 then
      var index := s.puzzleIndex + 1;
      s'.(puzzleIndex := index, isLastPuzzleOnLevel := index == s.puzzleCount - 1)
    else if s.level < |levels| - 1 then
      s'.(puzzleIndex := 0, level := s.level + 1, puzzleCount := levels[s.level + 1])
    else
      s'
  }

  /** The effects of `advance`, in order. */
  function AdvanceEffects(levels: seq<nat>, s: SceneState): (e: seq<Effect>)
    requires s.level < |levels|
    ensures |e| >= 2 && e[0] == DestroyPuzzle(s.puzzleIndex)
  {
    [DestroyPuzzle(s.puzzleIndex)] +
    if s.puzzleIndex < s.puzzleCount - 1 then
      [FadeIn, IntroducePuzzle(s.puzzleIndex + 1)]
    else if s.level < |levels| - 1 then
      DestroyAll(s.puzzleCount) + [ResetProgress, LoadLevel(s.level + 1), FadeIn, IntroducePuzzle(0)]
    else
      [GameWon]
  }

  /** `for puzzle in self.puzzles: puzzle.destroy()` over `count` puzzles. */
  function DestroyAll(count: nat): (e: seq<Effect>)
    ensures |e| == count && forall i :: 0 <= i < count ==> e[i] == DestroyPuzzle(i)
  {
    if count == 0 then [] else DestroyAll(count - 1) + [DestroyPuzzle(count - 1)]
  }

  /** The state change of the first branch of `handle_event` that matches. */
  function HandleEventState(levels: seq<nat>, s: SceneState, event: Event, puzzleSolved: bool): SceneState
    requires s.level < |levels|
  {
    match event
    case PuzzleSolved => s.(showNextButton := true)
    case NextPuzzle => s
    case FadedOut => if puzzleSolved then AdvanceState(levels, s) else s
    case NextLevel => if puzzleSolved then AdvanceState(levels, s) else s
    case OtherEvent => s
  }

  /**
   * The effects of `handle_event`, in order: those of the first matching
   * branch, then the event handed on to the current puzzle when it is alive
   * (`puzzleAlive`, read after the branch ran) and to the "next" button.
   */
  function HandleEventEffects(levels: seq<nat>, s: SceneState, event: Event, puzzleSolved: bool, puzzleAlive: bool)
    : seq<Effect>
    requires s.level < |levels|
  {
    var branch :=
      match event
      case PuzzleSolved => [CompletePuzzle(s.puzzleIndex)]
      case NextPuzzle => [FadeOut]
      case FadedOut => if puzzleSolved then AdvanceEffects(levels, s) else []
      case NextLevel => if puzzleSolved then AdvanceEffects(levels, s) else []
      case OtherEvent => [];
    var current := HandleEventState(levels, s, event, puzzleSolved).puzzleIndex;
    branch + (if puzzleAlive then [ForwardToPuzzle(current)] else []) + [ForwardToNextButton]
  }

  /** The effects of `_go_to_next_puzzle`: at most one, and none unless the button is up. */
  function GoToNextPuzzleEffects(s: SceneState): (e: seq<Effect>)
    ensures |e| <= 1
    ensures e != [] <==> s.showNextButton
    ensures ExplodePuzzle(s.puzzleIndex) in e ==> s.isLastPuzzleOnLevel
  {
    if !s.showNextButton then []
    else if s.isLastPuzzleOnLevel then [ExplodePuzzle(s.puzzleIndex)]
    else [EmitNextPuzzle]
  }

  /** How many puzzles come before level `l`. */
  function PuzzlesBefore(levels: seq<nat>, l: nat): nat
    requires l <= |levels|
  {
    if l == 0 then 0 else PuzzlesBefore(levels, l - 1) + levels[l - 1]
  }

  /** The position of the current puzzle in the whole game. */
  function Rank(levels: seq<nat>, s: SceneState): nat
    requires s.level < |levels|
  {
    PuzzlesBefore(levels, s.level) + s.puzzleIndex
  }

  /** The last puzzle of the last level. */
  predicate AtFinalPuzzle(levels: seq<nat>, s: SceneState) {
    s.level == |levels| - 1 && s.puzzleIndex == s.puzzleCount - 1
  }

  // ---------------------------------------------------------------------
  // Properties of the progression

  /** `advance` keeps both indices in bounds, provided no level is empty. */
  lemma AdvanceKeepsBounds(levels: seq<nat>, s: SceneState)
    requires AllLevelsNonEmpty(levels) && InBounds(levels, s)
    ensures InBounds(levels, AdvanceState(levels, s))
  {
  }

  /**
   * `advance` moves to the very next puzzle of the game, across level
   * boundaries, except on the final puzzle, where the indices stay put.
   */
  lemma AdvanceMovesToNextPuzzle(levels: seq<nat>, s: SceneState)
    requires InBounds(levels, s)
    ensures var t := AdvanceState(levels, s);
      && (AtFinalPuzzle(levels, s) ==> t.level == s.level && t.puzzleIndex == s.puzzleIndex)
      && (!AtFinalPuzzle(levels, s) ==> Rank(levels, t) == Rank(levels, s) + 1)
  {
    var t := AdvanceState(levels, s);
    if !(s.puzzleIndex < s.puzzleCount - 1) && s.level < |levels| - 1 {
      assert s.puzzleIndex == levels[s.level] - 1;
      assert PuzzlesBefore(levels, t.level) == PuzzlesBefore(levels, s.level) + levels[s.level];
    }
  }

  /** Repeated `advance` never leaves the final puzzle once there. */
  lemma FinalPuzzleIsStable(levels: seq<nat>, s: SceneState)
    requires InBounds(levels, s) && AtFinalPuzzle(levels, s)
    ensures AdvanceState(levels, s) == s.(showNextButton := false)
    ensures AtFinalPuzzle(levels, AdvanceState(levels, s))
  {
  }

  /**
   * The is-last flag stays right across `advance` when every level after
   * the first holds one puzzle: a new level's first puzzle is then also its
   * last, and the level-change branch, which leaves the flag alone, finds
   * it already true.
   */
  lemma AdvanceKeepsLastFlag(levels: seq<nat>, s: SceneState)
    requires InBounds(levels, s) && LastFlagCorrect(s)
    requires forall l :: 1 <= l < |levels| ==> levels[l] == 1
    ensures LastFlagCorrect(AdvanceState(levels, s))
  {
  }

  /**
   * Without single-puzzle levels after the first, the flag goes wrong: with
   * two levels of two puzzles, moving to the second level keeps the flag
   * true on a puzzle that is not the last.
   */
  lemma LastFlagWrongAfterTwoPuzzleLevel()
    ensures var levels := [2, 2];
      var s := AdvanceState(levels, AdvanceState(levels, InitialState(levels)));
      InBounds(levels, s) && s.level == 1 && s.puzzleIndex == 0 && !LastFlagCorrect(s)
  {
  }

  /** For the game's own level table the flag is right from the start and stays so under `advance`. */
  lemma GameLevelsKeepLastFlag(s: SceneState)
    ensures InBounds(Levels, InitialState(Levels)) && LastFlagCorrect(InitialState(Levels))
    ensures InBounds(Levels, s) && LastFlagCorrect(s) ==>
      InBounds(Levels, AdvanceState(Levels, s)) && LastFlagCorrect(AdvanceState(Levels, s))
  {
    if InBounds(Levels, s) && LastFlagCorrect(s) {
      AdvanceKeepsBounds(Levels, s);
      AdvanceKeepsLastFlag(Levels, s);
    }
  }

  /** Every event keeps the indices in bounds and the flag right when `advance` does. */
  lemma HandleEventKeepsInvariants(levels: seq<nat>, s: SceneState, event: Event, puzzleSolved: bool)
    requires AllLevelsNonEmpty(levels) && InBounds(levels, s)
    requires forall l :: 1 <= l < |levels| ==> levels[l] == 1
    ensures InBounds(levels, HandleEventState(levels, s, event, puzzleSolved))
    ensures LastFlagCorrect(s) ==> LastFlagCorrect(HandleEventState(levels, s, event, puzzleSolved))
  {
    AdvanceKeepsBounds(levels, s);
    if LastFlagCorrect(s) {
      AdvanceKeepsLastFlag(levels, s);
    }
  }

  /** Only a solved puzzle lets the scene move on: an unsolved one keeps both indices, whatever the event. */
  lemma UnsolvedPuzzleHoldsScene(levels: seq<nat>, s: SceneState, event: Event)
    requires s.level < |levels|
    ensures var t := HandleEventState(levels, s, event, false);
      t.level == s.level && t.puzzleIndex == s.puzzleIndex && t.isLastPuzzleOnLevel == s.isLastPuzzleOnLevel
  {
  }

  /**
   * With the flag right, a click on the "next" button explodes the current
   * puzzle exactly when it is the last of its level, and asks for the next
   * puzzle exactly when it is not.
   */
  lemma ClickFollowsLastFlag(levels: seq<nat>, s: SceneState)
    requires InBounds(levels, s) && LastFlagCorrect(s)
    ensures var e := GoToNextPuzzleEffects(s);
      && (ExplodePuzzle(s.puzzleIndex) in e <==> s.showNextButton && s.puzzleIndex == s.puzzleCount - 1)
      && (EmitNextPuzzle in e <==> s.showNextButton && s.puzzleIndex < s.puzzleCount - 1)
  {
  }

  /**
   * One event moves the scene by at most one puzzle, and only a fade-out or
   * next-level event over a solved puzzle moves it at all. The button is up
   * afterwards exactly when the puzzle was just solved, or it was up and the
   * scene did not advance.
   */
  lemma HandleEventProgress(levels: seq<nat>, s: SceneState, event: Event, puzzleSolved: bool)
    requires InBounds(levels, s)
    ensures var t := HandleEventState(levels, s, event, puzzleSolved);
      && t.level < |levels|
      && ((t.level == s.level && t.puzzleIndex == s.puzzleIndex) || Rank(levels, t) == Rank(levels, s) + 1)
      && (Rank(levels, t) != Rank(levels, s) ==> (event == FadedOut || event == NextLevel) && puzzleSolved)
      && (t.showNextButton <==>
            event == PuzzleSolved || (s.showNextButton && !((event == FadedOut || event == NextLevel) && puzzleSolved)))
  {
    AdvanceMovesToNextPuzzle(levels, s);
  }

  // ---------------------------------------------------------------------
  // The scene object

  class GameplayScene {
    var currentLevelIndex: nat
    var currentPuzzleIndex: nat
    var puzzleCount: nat
    var showNextButton: bool
    var isLastPuzzleOnLevel: bool
    ghost var effects: seq<Effect>

    function State(): SceneState
      reads this
    {
      SceneState(currentLevelIndex, currentPuzzleIndex, puzzleCount, showNextButton, isLastPuzzleOnLevel)
    }

    ghost predicate Valid()
      reads this
    {
      InBounds(Levels, State()) && LastFlagCorrect(State())
    }

    /** `__init__`: level 0, puzzle 0, the level's puzzles loaded, button down. */
    constructor ()
      ensures State() == InitialState(Levels) && Valid()
      ensures effects == [LoadLevel(0)]
    {
      currentLevelIndex := 0;
      currentPuzzleIndex := 0;
      puzzleCount := Levels[0];
      effects := [LoadLevel(0)];
      showNextButton := false;
      isLastPuzzleOnLevel := false;
    }

    /** `advance`. */
    method Advance()
      requires Valid()
      modifies this
      ensures State() == AdvanceState(Levels, old(State())) && Valid()
      ensures effects == old(effects) + AdvanceEffects(Levels, old(State()))
    {
      GameLevelsKeepLastFlag(State());
      effects := effects + [DestroyPuzzle(currentPuzzleIndex)];
      showNextButton := false;
      var puzzlesCount := puzzleCount;
      if currentPuzzleIndex < puzzlesCount - 1 {
        currentPuzzleIndex := currentPuzzleIndex + 1;
        isLastPuzzleOnLevel := currentPuzzleIndex == puzzlesCount - 1;
        effects := effects + [FadeIn, IntroducePuzzle(currentPuzzleIndex)];
      } else if currentLevelIndex < |Levels| - 1 {
        var i := 0;
        while i < puzzlesCount
          invariant 0 <= i <= puzzlesCount
          invariant effects == old(effects) + [DestroyPuzzle(old(currentPuzzleIndex))] + DestroyAll(i)
          invariant State() == old(State()).(showNextButton := false)
        {
          effects := effects + [DestroyPuzzle(i)];
          i := i + 1;
        }
        currentPuzzleIndex := 0;
        currentLevelIndex := currentLevelIndex + 1;
        puzzleCount := Levels[currentLevelIndex];
        effects := effects + [ResetProgress, LoadLevel(currentLevelIndex), FadeIn, IntroducePuzzle(0)];
      } else {
        effects := effects + [GameWon];
      }
    }

    /** `_go_to_next_puzzle`, the button's click handler. */
    method GoToNextPuzzle()
      modifies this
      ensures State() == old(State())
      ensures effects == old(effects) + GoToNextPuzzleEffects(old(State()))
    {
      if showNextButton {
        if isLastPuzzleOnLevel {
          effects := effects + [ExplodePuzzle(currentPuzzleIndex)];
        } else {
          effects := effects + [EmitNextPuzzle];
        }
      }
    }

    /**
     * `handle_event`. `puzzleSolved` is the current puzzle's
     * `is_puzzle_solved`; `puzzleAlive` is `is_alive` of the puzzle that is
     * current once the branches have run.
     */
    method HandleEvent(event: Event, puzzleSolved: bool, puzzleAlive: bool)
      requires Valid()
      modifies this
      ensures State() == HandleEventState(Levels, old(State()), event, puzzleSolved) && Valid()
      ensures effects == old(effects) + HandleEventEffects(Levels, old(State()), event, puzzleSolved, puzzleAlive)
    {
      match event {
        case PuzzleSolved =>
          effects := effects + [CompletePuzzle(currentPuzzleIndex)];
          showNextButton := true;
        case NextPuzzle =>
          effects := effects + [FadeOut];
        case FadedOut =>
          if puzzleSolved {
            Advance();
          }
        case NextLevel =>
          if puzzleSolved {
            Advance();
          }
        case OtherEvent =>
      }
      if puzzleAlive {
        effects := effects + [ForwardToPuzzle(currentPuzzleIndex)];
      }
      effects := effects + [ForwardToNextButton];
    }
  }
}
