/**
 * The game session of `useGameState`: one record of game state, rewritten
 * by the player's events (start, click on a tile, next level, reset, the
 * colour-blind toggle) and by a once-a-second timer tick, and the display
 * language beside it.
 *
 * The events are first given as functions from the old record to the new
 * one; the class `Session` then holds one such record and the language,
 * and its methods replace the record whole as the hook's updates do, each
 * proved to produce what the corresponding function says.
 */
module Game {
  import opened Wrappers
  import Types
  import Colors
  import I18n
  import GameHeader

  /** The game state record, field for field. */
  datatype GameState = GameState(
    currentLevel: int,
    remainingLives: int,
    totalTime: nat,
    isPlaying: bool,
    isGameOver: bool,
    isLevelComplete: bool,
    isAllComplete: bool,
    bestRecord: Option<int>,
    differentIndex: int,
    baseColor: string,
    differentColor: string,
    showCorrectAnswer: bool,
    colorBlindMode: bool)

  const InitialLives: int := 3
  const InitialLanguage: I18n.Language := I18n.ZhTW

  /**
   * What every reachable state satisfies: the level is one of the table's,
   * at most three lives, at most one of the three end flags, the correct
   * answer is shown exactly in a lost game and a lost game is one with no
   * lives left, a finished game is not running, a won game stands at the
   * last level and a passed level is not the last, a running game's odd tile
   * is on its grid, and a record is a level number.
   */
  predicate Inv(s: GameState) {
    && 1 <= s.currentLevel <= Types.MaxLevel
    && 0 <= s.remainingLives <= InitialLives
    && !(s.isLevelComplete && s.isGameOver)
    && !(s.isLevelComplete && s.isAllComplete)
    && !(s.isGameOver && s.isAllComplete)
    && (s.showCorrectAnswer <==> s.isGameOver)
    && (s.isGameOver <==> s.remainingLives == 0)
    && (s.isGameOver || s.isAllComplete ==> !s.isPlaying)
    && (s.isAllComplete ==> s.currentLevel == Types.MaxLevel)
    && (s.isLevelComplete ==> s.currentLevel < Types.MaxLevel)
    && (s.isPlaying ==> 0 <= s.differentIndex < Types.CellCount(s.currentLevel))
    && (s.bestRecord.Some? ==> 1 <= s.bestRecord.value <= Types.MaxLevel)
  }

  /** The state the hook starts from. */
  function Initial(): (s: GameState)
    ensures Inv(s) && !s.isPlaying && s.bestRecord == None
  {
    GameState(1, InitialLives, 0, false, false, false, false, None, 0, "#888888", "#888888", false, false)
  }

  // ------------------------------------------------------------ the events

  /**
   * `generateLevel(level)` once its random tile and colour pair are drawn:
   * move to the level, place the odd tile, paint both colours and clear the
   * level-complete flag and the correct-answer display.
   */
  function WithLevel(s: GameState, level: int, index: int, pair: Colors.ColorPair): GameState
    requires 1 <= level <= Types.MaxLevel
    requires 0 <= index < Types.CellCount(level)
  {
    s.(currentLevel := level, differentIndex := index,
       baseColor := pair.base, differentColor := pair.different,
       isLevelComplete := false, showCorrectAnswer := false)
  }

  /** `startGame`: back to level 1 with three lives and a zero clock, running, then `generateLevel(1)`. */
  function Start(s: GameState, index: int, pair: Colors.ColorPair): GameState
    requires 0 <= index < Types.CellCount(1)
  {
    WithLevel(s.(currentLevel := 1, remainingLives := InitialLives, totalTime := 0,
                 isPlaying := true, isGameOver := false, isLevelComplete := false,
                 isAllComplete := false, showCorrectAnswer := false),
              1, index, pair)
  }

  /** The guard of `handleCellClick`: a passed level, a lost game or a won game takes no clicks. */
  predicate Blocked(s: GameState) {
    s.isLevelComplete || s.isGameOver || s.isAllComplete
  }

  /** The `newBest` of `handleCellClick`: n when there is no record or n beats it, else the record. */
  function Improved(best: Option<int>, n: int): (r: int)
    ensures r >= n && (best.Some? ==> r >= best.value)
    ensures r == n || (best.Some? && r == best.value)
  {
    if best.None? || n > best.value then n else best.value
  }

  /**
   * `handleCellClick(index)`: the odd tile passes the level, or wins the game
   * at the last level and records it; another tile costs a life, and the last
   * life loses the game, records the last level passed when that is at least
   * one and shows the correct answer.
   */
  function Click(s: GameState, index: int): GameState {
    if Blocked(s) then s
    else if index == s.differentIndex then
      if s.currentLevel >= Types.MaxLevel then
        s.(isAllComplete := true, isPlaying := false,
           bestRecord := Some(Improved(s.bestRecord, s.currentLevel)))
      else
        s.(isLevelComplete := true)
    else
      var newLives := s.remainingLives - 1;
      if newLives <= 0 then
        var newBest := Improved(s.bestRecord, s.currentLevel - 1);
        s.(remainingLives := 0, isGameOver := true, isPlaying := false, showCorrectAnswer := true,
           bestRecord := if newBest > 0 then Some(newBest) else s.bestRecord)
      else
        s.(remainingLives := newLives)
  }

  /**
   * `nextLevel`: three lives again and `generateLevel(currentLevel + 1)`.
   * There is no entry in the level table past the last level, so the caller
   * must not be there.
   */
  function Next(s: GameState, index: int, pair: Colors.ColorPair): GameState
    requires 1 <= s.currentLevel < Types.MaxLevel
    requires 0 <= index < Types.CellCount(s.currentLevel + 1)
  {
    WithLevel(s.(remainingLives := InitialLives), s.currentLevel + 1, index, pair)
  }

  /** `resetGame`: level 1, three lives, a zero clock and every flag down; record, mode, tile and colours stay. */
  function Reset(s: GameState): GameState {
    s.(currentLevel := 1, remainingLives := InitialLives, totalTime := 0,
       isPlaying := false, isGameOver := false, isLevelComplete := false,
       isAllComplete := false, showCorrectAnswer := false)
  }

  /** `toggleColorBlindMode`. */
  function ToggleColorBlind(s: GameState): GameState {
    s.(colorBlindMode := !s.colorBlindMode)
  }

  /** `toggleLanguage`. */
  function FlipLanguage(lang: I18n.Language): I18n.Language {
    if lang == I18n.ZhTW then I18n.En else I18n.ZhTW
  }

  /** The timer effect's condition: the clock runs while a game is on and no end flag is up. */
  predicate TimerRuns(s: GameState) {
    s.isPlaying && !s.isGameOver && !s.isLevelComplete && !s.isAllComplete
  }

  /** One second of the timer: one more second on the clock while it runs. */
  function TickOnce(s: GameState): GameState {
    if TimerRuns(s) then s.(totalTime := s.totalTime + 1) else s
  }

  // ------------------------------------------------- what each event does

  /** The state right after `startGame`; record and colour-blind mode survive. */
  lemma StartState(s: GameState, index: int, pair: Colors.ColorPair)
    requires 0 <= index < Types.CellCount(1)
    ensures var r := Start(s, index, pair);
      && r.currentLevel == 1 && r.remainingLives == 3 && r.totalTime == 0 && r.isPlaying
      && !r.isGameOver && !r.isLevelComplete && !r.isAllComplete && !r.showCorrectAnswer
      && 0 <= r.differentIndex < 9
      && r.baseColor == pair.base && r.differentColor == pair.different
      && r.bestRecord == s.bestRecord && r.colorBlindMode == s.colorBlindMode
  {
    Types.CellCountNonDecreasing();
  }

  /** A passed level, a lost game or a won game ignores every click. */
  lemma ClickIgnoredWhenBlocked(s: GameState, index: int)
    requires Blocked(s)
    ensures Click(s, index) == s
  {
  }

  /** The odd tile below the last level raises the level-complete flag and changes nothing else. */
  lemma CorrectClickPassesLevel(s: GameState)
    requires !Blocked(s) && s.currentLevel < Types.MaxLevel
    ensures Click(s, s.differentIndex) == s.(isLevelComplete := true)
  {
  }

  /**
   * The odd tile at the last level wins: the game stops and the record
   * becomes this level unless it was already higher.
   */
  lemma CorrectClickWinsAtLastLevel(s: GameState)
    requires !Blocked(s) && s.currentLevel >= Types.MaxLevel
    ensures var r := Click(s, s.differentIndex);
      && r.isAllComplete && !r.isPlaying
      && r.bestRecord == Some(if s.bestRecord.Some? && s.bestRecord.value >= s.currentLevel
                              then s.bestRecord.value else s.currentLevel)
      && r == s.(isAllComplete := r.isAllComplete, isPlaying := r.isPlaying, bestRecord := r.bestRecord)
  {
  }

  /** Another tile with lives to spare costs exactly one life. */
  lemma WrongClickCostsLife(s: GameState, index: int)
    requires !Blocked(s) && index != s.differentIndex && s.remainingLives > 1
    ensures Click(s, index) == s.(remainingLives := s.remainingLives - 1)
  {
  }

  /**
   * Another tile on the last life loses: no lives, game over, stopped, the
   * answer shown, and the record raised to the last level passed, but only
   * when at least one level was passed.
   */
  lemma WrongClickLoses(s: GameState, index: int)
    requires !Blocked(s) && index != s.differentIndex && s.remainingLives <= 1
    ensures var r := Click(s, index);
      && r.remainingLives == 0 && r.isGameOver && !r.isPlaying && r.showCorrectAnswer
      && r.bestRecord == (if s.bestRecord.Some? && s.bestRecord.value >= s.currentLevel - 1 then s.bestRecord
                          else if s.currentLevel - 1 > 0 then Some(s.currentLevel - 1)
                          else s.bestRecord)
      && r == s.(remainingLives := 0, isGameOver := true, isPlaying := false, showCorrectAnswer := true,
                 bestRecord := r.bestRecord)
  {
  }

  /** Losing the first level with no record leaves no record: a zero is never stored. */
  lemma LosingFirstLevelRecordsNothing(s: GameState, index: int)
    requires !Blocked(s) && index != s.differentIndex && s.remainingLives <= 1
    requires s.currentLevel == 1 && s.bestRecord == None
    ensures Click(s, index).isGameOver && Click(s, index).bestRecord == None
  {
  }

  /** The state right after `nextLevel`: the following level, full lives, the overlay and the answer gone. */
  lemma NextState(s: GameState, index: int, pair: Colors.ColorPair)
    requires 1 <= s.currentLevel < Types.MaxLevel
    requires 0 <= index < Types.CellCount(s.currentLevel + 1)
    ensures var r := Next(s, index, pair);
      && r.currentLevel == s.currentLevel + 1 && r.remainingLives == 3
      && !r.isLevelComplete && !r.showCorrectAnswer
      && r.differentIndex == index && 0 <= r.differentIndex < Types.CellCount(r.currentLevel)
      && r.baseColor == pair.base && r.differentColor == pair.different
      && r.totalTime == s.totalTime && r.isPlaying == s.isPlaying && r.bestRecord == s.bestRecord
      && r.colorBlindMode == s.colorBlindMode && r.isGameOver == s.isGameOver && r.isAllComplete == s.isAllComplete
  {
  }

  /** The clock gains one second exactly when it runs and nothing else changes; it pauses on a passed level. */
  lemma TickAdvances(s: GameState)
    ensures TickOnce(s).totalTime == s.totalTime + (if TimerRuns(s) then 1 else 0)
    ensures TickOnce(s) == s.(totalTime := TickOnce(s).totalTime)
    ensures s.isLevelComplete ==> TickOnce(s) == s
  {
  }

  /** `resetGame` stops everything but keeps the record, the mode, the tile and the colours; twice is once. */
  lemma ResetState(s: GameState)
    ensures var r := Reset(s);
      && r.currentLevel == 1 && r.remainingLives == 3 && r.totalTime == 0
      && !r.isPlaying && !Blocked(r) && !r.showCorrectAnswer
      && r.bestRecord == s.bestRecord && r.colorBlindMode == s.colorBlindMode
      && r.differentIndex == s.differentIndex
      && r.baseColor == s.baseColor && r.differentColor == s.differentColor
    ensures Reset(Reset(s)) == Reset(s)
  {
  }

  /** Both toggles undo themselves. */
  lemma TogglesInvolutive(s: GameState, lang: I18n.Language)
    ensures ToggleColorBlind(ToggleColorBlind(s)) == s
    ensures ToggleColorBlind(s).colorBlindMode != s.colorBlindMode
    ensures FlipLanguage(FlipLanguage(lang)) == lang && FlipLanguage(lang) != lang
  {
  }

  /** In every reachable state the header's hearts show exactly the remaining lives. */
  lemma HeartsMatchLives(s: GameState)
    requires Inv(s)
    ensures GameHeader.FullCount(GameHeader.Hearts(s.remainingLives)) == s.remainingLives
  {
    GameHeader.HeartsShowLives(s.remainingLives);
  }

  // ------------------------------------------------------------ whole runs

  /** The events the screen can send to the hook. */
  datatype Event =
    | StartGame(index: int, pair: Colors.ColorPair)
    | CellClick(index: int)
    | NextLevel(index: int, pair: Colors.ColorPair)
    | ResetGame
    | ToggleColorBlindMode
    | TimerTick

  /**
   * When an event can arrive: the drawn tile is on the new level's grid, and
   * `nextLevel` comes only from the level-complete overlay, shown while the
   * level-complete flag is up, below the last level.
   */
  predicate Enabled(s: GameState, e: Event) {
    match e
    case StartGame(index, _) => 0 <= index < Types.CellCount(1)
    case NextLevel(index, _) =>
      s.isLevelComplete && 1 <= s.currentLevel < Types.MaxLevel && 0 <= index < Types.CellCount(s.currentLevel + 1)
    case _ => true
  }

  function Apply(s: GameState, e: Event): GameState
    requires Enabled(s, e)
  {
    match e
    case StartGame(index, pair) => Start(s, index, pair)
    case CellClick(index) => Click(s, index)
    case NextLevel(index, pair) => Next(s, index, pair)
    case ResetGame => Reset(s)
    case ToggleColorBlindMode => ToggleColorBlind(s)
    case TimerTick => TickOnce(s)
  }

  /** `a` is no better than `b`: no record, or both recorded and a's is at most b's. */
  predicate RecordLe(a: Option<int>, b: Option<int>) {
    a.None? || (b.Some? && a.value <= b.value)
  }

  /** A click keeps the invariant and never lowers the record. */
  lemma ClickKeepsInv(s: GameState, index: int)
    requires Inv(s)
    ensures Inv(Click(s, index)) && RecordLe(s.bestRecord, Click(s, index).bestRecord)
  {
    if !Blocked(s) && index != s.differentIndex && s.remainingLives - 1 <= 0 {
      var newBest := Improved(s.bestRecord, s.currentLevel - 1);
      assert newBest <= Types.MaxLevel;
    }
  }

  /** Every event keeps the invariant and never lowers the record. */
  lemma EventKeepsInv(s: GameState, e: Event)
    requires Inv(s) && Enabled(s, e)
    ensures Inv(Apply(s, e)) && RecordLe(s.bestRecord, Apply(s, e).bestRecord)
  {
    match e
    case StartGame(index, pair) =>
      Types.CellCountNonDecreasing();
    case CellClick(index) =>
      ClickKeepsInv(s, index);
    case NextLevel(index, pair) =>
    case ResetGame =>
    case ToggleColorBlindMode =>
    case TimerTick =>
  }

  /** A sequence of events each of which can arrive in the state the ones before it left. */
  predicate EnabledRun(s: GameState, es: seq<Event>)
    decreases |es|
  {
    es == [] || (Enabled(s, es[0]) && EnabledRun(Apply(s, es[0]), es[1..]))
  }

  function Run(s: GameState, es: seq<Event>): GameState
    requires EnabledRun(s, es)
    decreases |es|
  {
    if es == [] then s else Run(Apply(s, es[0]), es[1..])
  }

  /** After any run from a state that keeps the invariant, it still holds, and the record is no lower. */
  lemma {:induction false} RunKeepsInv(s: GameState, es: seq<Event>)
    requires Inv(s) && EnabledRun(s, es)
    ensures Inv(Run(s, es)) && RecordLe(s.bestRecord, Run(s, es).bestRecord)
    decreases |es|
  {
    if es != [] {
      EventKeepsInv(s, es[0]);
      RunKeepsInv(Apply(s, es[0]), es[1..]);
    }
  }

  /** Every state reachable from the initial one keeps the invariant. */
  lemma ReachableKeepsInv(es: seq<Event>)
    requires EnabledRun(Initial(), es)
    ensures Inv(Run(Initial(), es))
  {
    RunKeepsInv(Initial(), es);
  }

  /** One random tile per level, each on its level's grid. */
  predicate PicksOnGrid(picks: seq<int>) {
    |picks| == Types.MaxLevel && forall i :: 0 <= i < |picks| ==> 0 <= picks[i] < Types.CellCount(i + 1)
  }

  /** A game without a miss from level k on: the odd tile, then the next level, up to the last. */
  function Climb(picks: seq<int>, pairs: seq<Colors.ColorPair>, k: int): seq<Event>
    requires |picks| == Types.MaxLevel && |pairs| == Types.MaxLevel && 1 <= k <= Types.MaxLevel
    decreases Types.MaxLevel - k
  {
    if k == Types.MaxLevel then [CellClick(picks[k - 1])]
    else [CellClick(picks[k - 1]), NextLevel(picks[k], pairs[k])] + Climb(picks, pairs, k + 1)
  }

  /** Start, then no miss: picks[i] and pairs[i] are what `generateLevel(i + 1)` draws. */
  function PerfectGame(picks: seq<int>, pairs: seq<Colors.ColorPair>): seq<Event>
    requires |picks| == Types.MaxLevel && |pairs| == Types.MaxLevel
  {
    [StartGame(picks[0], pairs[0])] + Climb(picks, pairs, 1)
  }

  /** A flawless level below the last, its odd tile and then the next level, leads to the same kind of state one level up. */
  lemma ClimbStep(t: GameState, picks: seq<int>, pairs: seq<Colors.ColorPair>, k: int)
    requires PicksOnGrid(picks) && |pairs| == Types.MaxLevel && 1 <= k < Types.MaxLevel
    requires Inv(t) && t.currentLevel == k && t.isPlaying && !Blocked(t) && t.differentIndex == picks[k - 1]
    ensures var t2 := Next(Click(t, picks[k - 1]), picks[k], pairs[k]);
      && Inv(t2) && t2.currentLevel == k + 1 && t2.isPlaying && !Blocked(t2) && t2.differentIndex == picks[k]
      && (EnabledRun(t2, Climb(picks, pairs, k + 1)) ==>
            EnabledRun(t, Climb(picks, pairs, k)) && Run(t, Climb(picks, pairs, k)) == Run(t2, Climb(picks, pairs, k + 1)))
  {
    var es := Climb(picks, pairs, k);
    var t1 := Click(t, picks[k - 1]);
    CorrectClickPassesLevel(t);
    ClickKeepsInv(t, picks[k - 1]);
    var t2 := Next(t1, picks[k], pairs[k]);
    EventKeepsInv(t1, NextLevel(picks[k], pairs[k]));
    var rest := es[1..];
    assert es[0] == CellClick(picks[k - 1]) && Apply(t, es[0]) == t1;
    assert rest[0] == NextLevel(picks[k], pairs[k]) && rest[1..] == Climb(picks, pairs, k + 1);
    assert Enabled(t1, rest[0]) && Apply(t1, rest[0]) == t2;
  }

  lemma {:induction false} ClimbWins(t: GameState, picks: seq<int>, pairs: seq<Colors.ColorPair>, k: int)
    requires PicksOnGrid(picks) && |pairs| == Types.MaxLevel && 1 <= k <= Types.MaxLevel
    requires Inv(t) && t.currentLevel == k && t.isPlaying && !Blocked(t) && t.differentIndex == picks[k - 1]
    ensures EnabledRun(t, Climb(picks, pairs, k))
    ensures var r := Run(t, Climb(picks, pairs, k));
      r.isAllComplete && !r.isPlaying && r.currentLevel == Types.MaxLevel && r.bestRecord == Some(Types.MaxLevel)
    decreases Types.MaxLevel - k
  {
    if k == Types.MaxLevel {
      var es := Climb(picks, pairs, k);
      assert es[0] == CellClick(picks[k - 1]) && es[1..] == [];
    } else {
      ClimbStep(t, picks, pairs, k);
      ClimbWins(Next(Click(t, picks[k - 1]), picks[k], pairs[k]), picks, pairs, k + 1);
    }
  }

  /**
   * From any state, starting and then clicking the odd tile at every level,
   * moving on after each, wins the game at the last level with the record
   * at the last level.
   */
  lemma PerfectGameWins(s: GameState, picks: seq<int>, pairs: seq<Colors.ColorPair>)
    requires Inv(s) && PicksOnGrid(picks) && |pairs| == Types.MaxLevel
    ensures EnabledRun(s, PerfectGame(picks, pairs))
    ensures var r := Run(s, PerfectGame(picks, pairs));
      r.isAllComplete && r.currentLevel == Types.MaxLevel && r.bestRecord == Some(Types.MaxLevel)
  {
    var t := Start(s, picks[0], pairs[0]);
    EventKeepsInv(s, StartGame(picks[0], pairs[0]));
    ClimbWins(t, picks, pairs, 1);
    assert PerfectGame(picks, pairs)[1..] == Climb(picks, pairs, 1);
  }

  // --------------------------------------------------------------- session

  /**
   * The hook: the game state record and the display language, each replaced
   * by the handlers, and the colour science the pair generator uses.
   */
  class Session {
    var gameState: GameState
    var language: I18n.Language
    const science: Colors.Science

    predicate Valid()
      reads this
    {
      Inv(gameState)
    }

    /** The hook's initial state, in Traditional Chinese. */
    constructor (sc: Colors.Science)
      ensures gameState == Initial() && language == InitialLanguage && science == sc
      ensures Valid()
    {
      gameState := Initial();
      language := InitialLanguage;
      science := sc;
    }

    /**
     * `generateLevel(level)`, given the random tile and the random numbers of
     * the colour search.
     */
    method GenerateLevel(level: int, pick: int, draws: seq<Colors.AttemptDraw>)
      requires 1 <= level <= Types.MaxLevel
      requires 0 <= pick < Types.CellCount(level)
      requires |draws| == Colors.Attempts
      modifies this`gameState
      ensures gameState == WithLevel(old(gameState), level, pick,
                                     Colors.Generate(science, Types.Config(level).deltaE, level, draws))
    {
      var config := Types.Config(level);
      var colors: Colors.ColorPair;
      ghost var tried: nat;
      colors, tried := Colors.GenerateColorPair(science, config.deltaE, level, draws);
      gameState := gameState.(currentLevel := level, differentIndex := pick,
                              baseColor := colors.base, differentColor := colors.different,
                              isLevelComplete := false, showCorrectAnswer := false);
    }

    /** `startGame`. */
    method StartGame(pick: int, draws: seq<Colors.AttemptDraw>)
      requires Valid()
      requires 0 <= pick < Types.CellCount(1)
      requires |draws| == Colors.Attempts
      modifies this`gameState
      ensures gameState == Start(old(gameState), pick, Colors.Generate(science, Types.Config(1).deltaE, 1, draws))
      ensures Valid()
    {
      gameState := gameState.(currentLevel := 1, remainingLives := InitialLives, totalTime := 0,
                              isPlaying := true, isGameOver := false, isLevelComplete := false,
                              isAllComplete := false, showCorrectAnswer := false);
      GenerateLevel(1, pick, draws);
      EventKeepsInv(old(gameState), Event.StartGame(pick, Colors.Generate(science, Types.Config(1).deltaE, 1, draws)));
    }

    /** `handleCellClick(index)`. */
    method HandleCellClick(index: int)
      requires Valid()
      modifies this`gameState
      ensures gameState == Click(old(gameState), index)
      ensures Valid()
    {
      ClickKeepsInv(gameState, index);
      var s := gameState;
      if s.isLevelComplete || s.isGameOver || s.isAllComplete {
        return;
      }
      if index == s.differentIndex {
        if s.currentLevel >= Types.MaxLevel {
          var newBest := if s.bestRecord == None || s.currentLevel > s.bestRecord.value
            then s.currentLevel else s.bestRecord.value;
          gameState := s.(isAllComplete := true, isPlaying := false, bestRecord := Some(newBest));
        } else {
          gameState := s.(isLevelComplete := true);
        }
      } else {
        var newLives := s.remainingLives - 1;
        if newLives <= 0 {
          var newBest := if s.bestRecord == None || s.currentLevel - 1 > s.bestRecord.value
            then s.currentLevel - 1 else s.bestRecord.value;
          gameState := s.(remainingLives := 0, isGameOver := true, isPlaying := false, showCorrectAnswer := true,
                          bestRecord := if newBest > 0 then Some(newBest) else s.bestRecord);
        } else {
          gameState := s.(remainingLives := newLives);
        }
      }
    }

    /** `nextLevel`, sent by the level-complete overlay. */
    method NextLevel(pick: int, draws: seq<Colors.AttemptDraw>)
      requires Valid() && gameState.isLevelComplete
      requires 0 <= pick < Types.CellCount(gameState.currentLevel + 1)
      requires |draws| == Colors.Attempts
      modifies this`gameState
      ensures gameState == Next(old(gameState), pick,
        Colors.Generate(science, Types.Config(old(gameState.currentLevel) + 1).deltaE, old(gameState.currentLevel) + 1, draws))
      ensures Valid()
    {
      var newLevel := gameState.currentLevel + 1;
      gameState := gameState.(remainingLives := InitialLives);
      GenerateLevel(newLevel, pick, draws);
      EventKeepsInv(old(gameState), Event.NextLevel(pick, Colors.Generate(science, Types.Config(newLevel).deltaE, newLevel, draws)));
    }

    /** `resetGame`. */
    method ResetGame()
      requires Valid()
      modifies this`gameState
      ensures gameState == Reset(old(gameState))
      ensures Valid()
    {
      gameState := gameState.(currentLevel := 1, remainingLives := InitialLives, totalTime := 0,
                              isPlaying := false, isGameOver := false, isLevelComplete := false,
                              isAllComplete := false, showCorrectAnswer := false);
    }

    /** `toggleColorBlindMode`. */
    method ToggleColorBlindMode()
      requires Valid()
      modifies this`gameState
      ensures gameState == ToggleColorBlind(old(gameState))
      ensures Valid()
    {
      gameState := gameState.(colorBlindMode := !gameState.colorBlindMode);
    }

    /** `toggleLanguage`: the game state is untouched. */
    method ToggleLanguage()
      modifies this`language
      ensures language == FlipLanguage(old(language))
    {
      language := if language == I18n.ZhTW then I18n.En else I18n.ZhTW;
    }

    /** One firing of the timer's interval, whose callback adds a second to the clock. */
    method Tick()
      requires Valid()
      modifies this`gameState
      ensures gameState == TickOnce(old(gameState))
      ensures Valid()
    {
      var s := gameState;
      if s.isPlaying && !s.isGameOver && !s.isLevelComplete && !s.isAllComplete {
        gameState := s.(totalTime := s.totalTime + 1);
      }
    }
  }
}
